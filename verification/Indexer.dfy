/**
 run_full_index and run_incremental_index as they are written: loops that change the
 tables one transaction at a time, proved equal to IndexRuns.IndexRun.

 The statements' preconditions are the foreign keys, so the runs are also proved never to
 violate one.
 */
module Indexer {
  import opened Wrappers
  import opened SourceChunks
  import opened IndexTables
  import opened IndexRuns
  import opened IndexSteps
  import opened IndexTheorems
  import opened IndexContents
  import opened Sequences
  import Embedding

  class Database {
    var files: map<string, FileRow>
    var chunks: seq<ChunkRow>
    var edges: seq<EdgeRow>
    var repo: RepoRow
    var nextId: nat
    const embeddings: Embedding.Cache

    constructor (embeddings: Embedding.Cache)
      ensures View() == NewRepository(embeddings.store)
      ensures files == map[] && chunks == [] && edges == [] && repo == RepoRow(PENDING, None, 0, 0)
      ensures this.embeddings == embeddings
    {
      this.embeddings := embeddings;
      files, chunks, edges := map[], [], [];
      repo, nextId := RepoRow(PENDING, None, 0, 0), 0;
    }

    function View(): Tables
      reads this, embeddings
    {
      Tables(files, chunks, edges, embeddings.store, repo, nextId)
    }

    method SetRepo(row: RepoRow)
      modifies this`repo
      ensures View() == old(View()).(repo := row)
    {
      repo := row;
    }

    method FreshId() returns (id: nat)
      modifies this`nextId
      ensures id == old(nextId) && View() == old(View()).(nextId := old(nextId) + 1)
    {
      id := nextId;
      nextId := nextId + 1;
    }

    method DeleteChunksOf(fileId: nat)
      modifies this`chunks, this`edges
      ensures View() == DeleteChunks(old(View()), {fileId})
    {
      var removed := RemovedIds(chunks, {fileId});
      chunks := KeepChunks(chunks, {fileId});
      edges := KeepEdges(edges, removed);
    }

    method DeleteFileRows(paths: set<string>)
      modifies this`files, this`chunks, this`edges
      ensures View() == DeleteFiles(old(View()), paths)
    {
      var gone := set p | p in paths && p in files :: files[p].id;
      var removed := RemovedIds(chunks, gone);
      chunks := KeepChunks(chunks, gone);
      edges := KeepEdges(edges, removed);
      files := files - paths;
    }

    method WriteFileRow(path: string, row: FileRow)
      modifies this`files
      ensures View() == old(View()).(files := old(files)[path := row])
    {
      files := files[path := row];
    }

    method InsertChunk(row: ChunkRow)
      requires (row.contentHash, row.modelVersion) in embeddings.store && HasFile(View(), row.fileId)
      modifies this`chunks
      ensures View() == old(View()).(chunks := old(chunks) + [row])
    {
      chunks := chunks + [row];
    }

    method InsertEdge(e: EdgeRow)
      requires EdgeOk(e, Ids(chunks))
      modifies this`edges
      ensures View() == old(View()).(edges := old(edges) + [e])
    {
      edges := edges + [e];
    }

    /** The transaction that deletes the removed paths one by one. */
    method DeleteGone(paths: set<string>)
      modifies this`files, this`chunks, this`edges
      ensures View() == DeleteFiles(old(View()), paths)
    {
      ghost var before := View();
      var todo := paths;
      DeleteNothing(before);
      assert paths - todo == {};
      while todo != {}
        invariant todo <= paths
        invariant View() == DeleteFiles(before, paths - todo)
      {
        var path :| path in todo;
        DeleteTwice(before, paths - todo, {path});
        assert (paths - todo) + {path} == paths - (todo - {path});
        DeleteFileRows({path});
        todo := todo - {path};
      }
      assert paths - {} == paths;
    }
  }

  lemma DeleteNothing(t: Tables)
    ensures DeleteFiles(t, {}) == t
  {
    assert FileIds(t, {}) == {} && RemovedIds(t.chunks, {}) == {} && t.files - {} == t.files;
    KeepAllOrNone(t.chunks, {});
    KeepEdgesAllOrNone(t.edges, {});
  }

  lemma {:induction false} KeepChunksTwice(rows: seq<ChunkRow>, a: set<nat>, b: set<nat>)
    ensures KeepChunks(KeepChunks(rows, a), b) == KeepChunks(rows, a + b)
  {
    if rows == [] {
    } else {
      KeepChunksTwice(rows[1..], a, b);
      assert ([rows[0]] + KeepChunks(rows[1..], a))[1..] == KeepChunks(rows[1..], a);
    }
  }

  lemma {:induction false} KeepEdgesTwice(edges: seq<EdgeRow>, a: set<nat>, b: set<nat>)
    ensures KeepEdges(KeepEdges(edges, a), b) == KeepEdges(edges, a + b)
  {
    if edges == [] {
    } else {
      KeepEdgesTwice(edges[1..], a, b);
      assert ([edges[0]] + KeepEdges(edges[1..], a))[1..] == KeepEdges(edges[1..], a);
    }
  }

  lemma DeleteTwice(t: Tables, a: set<string>, b: set<string>)
    ensures DeleteFiles(DeleteFiles(t, a), b) == DeleteFiles(t, a + b)
  {
    var x, y := FileIds(t, a), FileIds(DeleteFiles(t, a), b);
    assert x + y == FileIds(t, a + b);
    KeepChunksTwice(t.chunks, x, y);
    KeepChunksMembers(t.chunks, x);
    KeepEdgesTwice(t.edges, RemovedIds(t.chunks, x), RemovedIds(KeepChunks(t.chunks, x), y));
    assert RemovedIds(t.chunks, x) + RemovedIds(KeepChunks(t.chunks, x), y) == RemovedIds(t.chunks, x + y);
    assert t.files - a - b == t.files - (a + b);
  }

  // ----- one file -----

  method UpsertFull(env: Env, db: Database, path: string, a: Action, sha: string) returns (fileId: nat)
    requires Inv(env, db.View()) && a.Index?
    modifies db
    ensures db.View() == UpsertFile(env, Full, old(db.View()), path, a, sha)
    ensures path in db.files && fileId == db.files[path].id && db.embeddings.store == old(db.embeddings.store)
  {
    ghost var before := db.View();
    if path in db.files {
      fileId := db.files[path].id;
    } else {
      fileId := db.FreshId();
    }
    db.WriteFileRow(path, FileRow(fileId, a.language, env.hash(a.content), a.size, sha));
    if path !in before.files {
      NewFileHasNoChunks(before);
    }
    db.DeleteChunksOf(fileId);
  }

  lemma NewFileHasNoChunks(t: Tables)
    requires Valid(t)
    ensures DeleteChunks(t, {t.nextId}) == t
  {
    forall c | c in t.chunks ensures c.fileId != t.nextId { assert HasFile(t, c.fileId); }
    KeepAllOrNone(t.chunks, {t.nextId});
    assert RemovedIds(t.chunks, {t.nextId}) == {};
    KeepEdgesAllOrNone(t.edges, {});
  }

  method UpsertIncremental(env: Env, db: Database, ghost mode: Mode, path: string, a: Action, sha: string)
    returns (fileId: nat)
    requires a.Index? && mode.Incremental?
    modifies db
    ensures db.View() == UpsertFile(env, mode, old(db.View()), path, a, sha)
    ensures path in db.files && fileId == db.files[path].id && db.embeddings.store == old(db.embeddings.store)
  {
    if path in db.files {
      var row := db.files[path];
      fileId := row.id;
      db.DeleteChunksOf(fileId);
      db.WriteFileRow(path, row.(contentHash := env.hash(a.content), size := a.size, sha := sha));
    } else {
      fileId := db.FreshId();
      db.WriteFileRow(path, FileRow(fileId, a.language, env.hash(a.content), a.size, sha));
    }
  }

  /** The rows of one parsed file, with a new id each. */
  method CollectRows(env: Env, db: Database, fileId: nat, language: string, parsed: seq<Chunk>)
    returns (rows: seq<ChunkRow>)
    modifies db`nextId
    ensures rows == MakeRows(env, fileId, language, parsed, old(db.nextId))
    ensures db.View() == old(db.View()).(nextId := old(db.nextId) + |parsed|)
  {
    rows := [];
    for k := 0 to |parsed|
      invariant rows == MakeRows(env, fileId, language, parsed[..k], old(db.nextId))
      invariant db.View() == old(db.View()).(nextId := old(db.nextId) + k)
    {
      var id := db.FreshId();
      rows := rows + [ChunkRow(id, fileId, parsed[k], language, env.hash(parsed[k].content), env.modelVersion)];
      assert parsed[..k + 1] == parsed[..k] + [parsed[k]];
    }
    assert parsed[..|parsed|] == parsed;
  }

  // ----- the last transaction -----

  ghost predicate ScopedMap(m: map<(nat, string), nat>, rows: seq<ChunkRow>) {
    forall fileId: nat, symbol: string ::
      LastScoped(rows, fileId, symbol) == if (fileId, symbol) in m then Some(m[(fileId, symbol)]) else None
  }

  ghost predicate GlobalMap(m: map<string, nat>, rows: seq<ChunkRow>) {
    forall symbol: string :: LastGlobal(rows, symbol) == if symbol in m then Some(m[symbol]) else None
  }

  ghost predicate Insertable(t: Tables, rows: seq<ChunkRow>) {
    forall c :: c in rows ==> (c.contentHash, c.modelVersion) in t.embeddings && HasFile(t, c.fileId)
  }

  method InsertRows(db: Database, rows: seq<ChunkRow>)
    returns (scoped: map<(nat, string), nat>, global: map<string, nat>)
    requires Insertable(db.View(), rows)
    modifies db`chunks
    ensures db.View() == old(db.View()).(chunks := old(db.chunks) + rows)
    ensures ScopedMap(scoped, rows) && GlobalMap(global, rows)
  {
    ghost var before := db.View();
    scoped, global := map[], map[];
    for i := 0 to |rows|
      invariant db.View() == before.(chunks := before.chunks + rows[..i])
      invariant ScopedMap(scoped, rows[..i]) && GlobalMap(global, rows[..i])
    {
      var row := rows[i];
      assert HasFile(before, row.fileId);
      assert HasFile(db.View(), row.fileId);
      db.InsertChunk(row);
      assert rows[..i + 1] == rows[..i] + [row] && rows[..i + 1][..i] == rows[..i];
      scoped := scoped[(row.fileId, row.chunk.symbol) := row.id];
      global := global[row.chunk.symbol := row.id];
    }
    assert rows[..|rows|] == rows;
  }

  method InsertFileEdges(db: Database, scoped: map<(nat, string), nat>, global: map<string, nat>, spec: FileSpec,
                         ghost rows: seq<ChunkRow>)
    requires ScopedMap(scoped, rows) && GlobalMap(global, rows) && Ids(rows) <= Ids(db.chunks)
    modifies db`edges
    ensures db.View() == old(db.View()).(edges := old(db.edges)
                           + ResolveFile(rows, spec.fileId, spec.relationships, |spec.relationships|))
  {
    ghost var before := db.View();
    for n := 0 to |spec.relationships|
      invariant db.View() == before.(edges := before.edges + ResolveFile(rows, spec.fileId, spec.relationships, n))
    {
      var rel := spec.relationships[n];
      var from := (spec.fileId, PyStr(rel.fromSymbol));
      assert LastScoped(rows, spec.fileId, PyStr(rel.fromSymbol)) == if from in scoped then Some(scoped[from]) else None;
      if from in scoped {
        var target := (spec.fileId, rel.target);
        var to := if target in scoped then Some(scoped[target])
                  else if rel.target in global then Some(global[rel.target]) else None;
        assert to == Target(rows, spec.fileId, rel.target);
        LastScopedIsARow(rows, spec.fileId, PyStr(rel.fromSymbol));
        LastScopedIsARow(rows, spec.fileId, rel.target);
        LastGlobalIsARow(rows, rel.target);
        db.InsertEdge(EdgeRow(scoped[from], to, rel.kind, if to.Some? then None else Some(rel.target)));
      }
    }
  }

  method InsertEdges(db: Database, scoped: map<(nat, string), nat>, global: map<string, nat>, specs: seq<FileSpec>,
                     ghost rows: seq<ChunkRow>)
    requires ScopedMap(scoped, rows) && GlobalMap(global, rows) && Ids(rows) <= Ids(db.chunks)
    modifies db`edges
    ensures db.View() == old(db.View()).(edges := old(db.edges) + Resolve(rows, specs, |specs|))
  {
    ghost var before := db.View();
    for n := 0 to |specs|
      invariant db.View() == before.(edges := before.edges + Resolve(rows, specs, n))
    {
      InsertFileEdges(db, scoped, global, specs[n], rows);
      Associates(before.edges, Resolve(rows, specs, n),
                 ResolveFile(rows, specs[n].fileId, specs[n].relationships, |specs[n].relationships|));
    }
  }

  method Store(db: Database, full: bool, ghost mode: Mode, rows: seq<ChunkRow>, specs: seq<FileSpec>, sha: string)
    requires full == mode.Full? && Insertable(db.View(), rows)
    modifies db
    ensures db.View() == StoreResults(mode, old(db.View()), rows, specs, sha)
    ensures db.embeddings.store == old(db.embeddings.store)
  {
    var scoped, global := InsertRows(db, rows);
    InsertEdges(db, scoped, global, specs, rows);
    if full {
      var stale := set p | p in db.files && db.files[p].sha != sha;
      db.DeleteFileRows(stale);
    }
    db.SetRepo(db.repo.(status := INDEXED, currentSha := Some(sha),
                        chunksIndexed := if full then |rows| else db.repo.chunksIndexed));
  }

  // ----- the stages of a run -----

  /** The two status updates before and after cloning. */
  method StartRun(db: Database, life: nat, ghost calls: nat) returns (alive: bool, left: nat)
    modifies db`repo
    ensures var r := SetStatus(SetStatus(Begin(old(db.View()), calls, life), CLONING), PARSING);
            r == Run(db.View(), [], [], 0, calls, left, alive)
  {
    left := life;
    if left == 0 { return false, left; }
    db.SetRepo(db.repo.(status := CLONING));
    left := left - 1;
    if left == 0 { return false, left; }
    db.SetRepo(db.repo.(status := PARSING));
    return true, left - 1;
  }

  /** The transaction that deletes the changed paths which are gone, if there are any. */
  method DeleteRemoved(db: Database, tree: Tree, changed: set<string>, started: bool, life: nat, ghost r: Run)
    returns (alive: bool, left: nat)
    requires r == Run(db.View(), [], [], 0, r.calls, life, started)
    modifies db`files, db`chunks, db`edges
    ensures var gone := Gone(Incremental(changed), tree);
            Run(db.View(), [], [], 0, r.calls, left, alive) == if gone == {} then r else Commit(r, DeleteFiles(r.t, gone))
  {
    alive, left := started, life;
    var deleted := set p | p in changed && !Exists(tree, p);
    if alive && deleted != {} {
      if left == 0 {
        alive := false;
      } else {
        db.DeleteGone(deleted);
        left := left - 1;
      }
    }
  }

  /** What the walk makes of a file that is indexed, in the terms of the loop variables. */
  lemma VisitIndexed(env: Env, mode: Mode, sha: string, walk: seq<string>, n: nat, start: Run, r: Run, u: Tables, fileId: nat)
    requires n < |walk| && r == VisitAll(env, mode, sha, walk, n, start) && r.alive && r.life > 0
    requires var a := ActionFor(env, mode, env.treeOf(sha), walk[n]);
             a.Index? && u == UpsertFile(env, mode, r.t, walk[n], a, sha) && walk[n] in u.files && u.files[walk[n]].id == fileId
    ensures var a := ActionFor(env, mode, env.treeOf(sha), walk[n]);
            var parsed := env.chunkFile(a.content, a.language);
            VisitAll(env, mode, sha, walk, n + 1, start)
            == Run(u.(nextId := u.nextId + |parsed|), r.rows + MakeRows(env, fileId, a.language, parsed, u.nextId),
                   r.specs + [FileSpec(fileId, env.extract(a.content, a.language, parsed))],
                   r.processed + 1, r.calls, r.life - 1, true)
  {}

  lemma VisitSkipped(env: Env, mode: Mode, sha: string, walk: seq<string>, n: nat, start: Run)
    requires n < |walk| && ActionFor(env, mode, env.treeOf(sha), walk[n]).Skip?
    ensures VisitAll(env, mode, sha, walk, n + 1, start) == VisitAll(env, mode, sha, walk, n, start)
  {}

  lemma VisitPurged(env: Env, mode: Mode, sha: string, walk: seq<string>, n: nat, start: Run, r: Run)
    requires n < |walk| && ActionFor(env, mode, env.treeOf(sha), walk[n]).Purge?
    requires r == VisitAll(env, mode, sha, walk, n, start) && r.alive && r.life > 0
    ensures VisitAll(env, mode, sha, walk, n + 1, start) == r.(t := DeleteFiles(r.t, {walk[n]}), life := r.life - 1)
  {}

  method WalkFull(env: Env, db: Database, sha: string, walk: seq<string>, life: nat, ghost base: nat, ghost start: Run)
    returns (alive: bool, rows: seq<ChunkRow>, specs: seq<FileSpec>, processed: nat, left: nat)
    requires start == Run(db.View(), [], [], 0, start.calls, life, true)
    requires RunInv(env, base, [], start) && IsWalk(env, env.treeOf(sha), walk)
    modifies db
    ensures var w := VisitAll(env, Full, sha, walk, |walk|, start);
            w.t == db.View() && w.alive == alive
            && (alive ==> w == Run(db.View(), rows, specs, processed, start.calls, left, true))
  {
    rows, specs, processed, left := [], [], 0, life;
    var tree := env.treeOf(sha);
    for n := 0 to |walk|
      invariant Run(db.View(), rows, specs, processed, start.calls, left, true)
             == VisitAll(env, Full, sha, walk, n, start)
    {
      ghost var r := Run(db.View(), rows, specs, processed, start.calls, left, true);
      var path := walk[n];
      if !tree[path].Regular? {
        VisitSkipped(env, Full, sha, walk, n, start);
        continue;
      }
      var size := tree[path].size;
      if env.excluded(path, size) {
        VisitSkipped(env, Full, sha, walk, n, start);
        continue;
      }
      var language := env.languageOf(path);
      if language.None? {
        VisitSkipped(env, Full, sha, walk, n, start);
        continue;
      }
      var content := tree[path].content;
      if left == 0 {
        DeadWalksNoFurther(env, Full, sha, walk, n + 1, |walk|, start);
        return false, rows, specs, processed, left;
      }
      WalkKeepsRunInv(env, Full, sha, base, walk, n, start);
      var fileId := UpsertFull(env, db, path, Index(language.value, size, content), sha);
      VisitIndexed(env, Full, sha, walk, n, start, r, db.View(), fileId);
      left := left - 1;
      var parsed := env.chunkFile(content, language.value);
      specs := specs + [FileSpec(fileId, env.extract(content, language.value, parsed))];
      processed := processed + 1;
      var more := CollectRows(env, db, fileId, language.value, parsed);
      rows := rows + more;
    }
    alive := true;
  }

  method WalkIncremental(env: Env, db: Database, sha: string, walk: seq<string>, changed: set<string>, life: nat,
                         ghost start: Run)
    returns (alive: bool, rows: seq<ChunkRow>, specs: seq<FileSpec>, processed: nat, left: nat)
    requires start == Run(db.View(), [], [], 0, start.calls, life, true) && IsWalk(env, env.treeOf(sha), walk)
    modifies db
    ensures var w := VisitAll(env, Incremental(changed), sha, walk, |walk|, start);
            w.t == db.View() && w.alive == alive
            && (alive ==> w == Run(db.View(), rows, specs, processed, start.calls, left, true))
  {
    rows, specs, processed, left := [], [], 0, life;
    var tree := env.treeOf(sha);
    for n := 0 to |walk|
      invariant Run(db.View(), rows, specs, processed, start.calls, left, true)
             == VisitAll(env, Incremental(changed), sha, walk, n, start)
    {
      ghost var r := Run(db.View(), rows, specs, processed, start.calls, left, true);
      var path := walk[n];
      if changed != {} && path !in changed {
        VisitSkipped(env, Incremental(changed), sha, walk, n, start);
        continue;
      }
      if !tree[path].Regular? {
        VisitSkipped(env, Incremental(changed), sha, walk, n, start);
        continue;
      }
      var size := tree[path].size;
      var language := env.languageOf(path);
      if left == 0 {
        DeadWalksNoFurther(env, Incremental(changed), sha, walk, n + 1, |walk|, start);
        return false, rows, specs, processed, left;
      }
      left := left - 1;
      if env.excluded(path, size) || language.None? {
        VisitPurged(env, Incremental(changed), sha, walk, n, start, r);
        db.DeleteFileRows({path});
        continue;
      }
      var content := tree[path].content;
      var fileId := UpsertIncremental(env, db, Incremental(changed), path, Index(language.value, size, content), sha);
      VisitIndexed(env, Incremental(changed), sha, walk, n, start, r, db.View(), fileId);
      var parsed := env.chunkFile(content, language.value);
      specs := specs + [FileSpec(fileId, env.extract(content, language.value, parsed))];
      processed := processed + 1;
      var more := CollectRows(env, db, fileId, language.value, parsed);
      rows := rows + more;
    }
    alive := true;
  }

  method EmbedStage(env: Env, db: Database, provider: Embedding.Provider, rows: seq<ChunkRow>,
                    ghost specs: seq<FileSpec>, processed: nat, life: nat)
    returns (alive: bool, left: nat)
    modifies db`repo, db.embeddings, provider
    ensures var r := Run(old(db.View()), rows, specs, processed, |old(provider.requests)|, life, true);
            var ready := Ready(env, provider.answer, r);
            ready.t == db.View() && ready.alive == alive && (alive ==> ready.life == left)
  {
    left := life;
    if left == 0 { return false, left; }
    db.SetRepo(db.repo.(status := EMBEDDING, filesIndexed := processed));
    left := left - 1;
    var outcome;
    outcome, left := Embedding.EmbedAndStoreBatch(db.embeddings, provider, Items(rows), env.modelVersion, left);
    if !outcome.Done? || left == 0 { return false, left; }
    db.SetRepo(db.repo.(status := STORING));
    return true, left - 1;
  }

  /** From the walk's end to the end; `alive` is false when the worker died or the batch failed. */
  method FinishRun(env: Env, db: Database, provider: Embedding.Provider, full: bool, ghost mode: Mode, sha: string,
                   rows: seq<ChunkRow>, specs: seq<FileSpec>, processed: nat, life: nat,
                   ghost base: nat, ghost seen: seq<string>)
    returns (alive: bool)
    requires full == mode.Full?
    requires RunInv(env, base, seen, Run(db.View(), rows, specs, processed, |provider.requests|, life, true))
    modifies db, db.embeddings, provider
    ensures var r := Run(old(db.View()), rows, specs, processed, |old(provider.requests)|, life, true);
            var last := Finish(env, provider.answer, mode, sha, r);
            db.View() == last.t && alive == last.alive
  {
    ghost var r := Run(db.View(), rows, specs, processed, |provider.requests|, life, true);
    ghost var ready := Ready(env, provider.answer, r);
    ReadyStep(env, provider.answer, base, seen, r);
    var left;
    alive, left := EmbedStage(env, db, provider, rows, specs, processed, life);
    if !alive || left == 0 { return false; }
    forall c | c in rows ensures HasFile(db.View(), c.fileId) { assert SeenFile(ready.t, seen, c.fileId); }
    Store(db, full, mode, rows, specs, sha);
  }

  // ----- the runs -----

  /** References, stamps and keys hold, and chunks that had the right hashes and languages still have them. */
  ghost predicate StaysSound(env: Env, t: Tables, u: Tables) {
    Inv(env, u) && (Labelled(env, t) ==> Labelled(env, u))
  }

  lemma RunKeeps(env: Env, oracle: Embedding.Oracle, calls: nat, mode: Mode, t: Tables, sha: string, walk: seq<string>, life: nat)
    requires Inv(env, t) && IsWalk(env, env.treeOf(sha), walk)
    ensures StaysSound(env, t, IndexRun(env, oracle, calls, mode, t, sha, walk, life).t)
  {
    EveryRunKeepsInv(env, oracle, calls, mode, t, sha, walk, life);
    if Labelled(env, t) { EveryRunLabels(env, oracle, calls, mode, t, sha, walk, life); }
  }

  method RunFullIndex(env: Env, db: Database, provider: Embedding.Provider, sha: string, walk: seq<string>, life: nat)
    returns (alive: bool)
    requires Inv(env, db.View()) && IsWalk(env, env.treeOf(sha), walk)
    modifies db, db.embeddings, provider
    ensures var run := IndexRun(env, provider.answer, |old(provider.requests)|, Full, old(db.View()), sha, walk, life);
            db.View() == run.t && alive == run.alive
    ensures StaysSound(env, old(db.View()), db.View())
  {
    ghost var t, calls := db.View(), |provider.requests|;
    RunKeeps(env, provider.answer, calls, Full, t, sha, walk, life);
    ghost var p0 := Prepare(Full, env.treeOf(sha), t, calls, life);
    PrepareStep(env, Full, env.treeOf(sha), t, calls, life);
    var left;
    alive, left := StartRun(db, life, calls);
    if !alive {
      DeadWalksNoFurther(env, Full, sha, walk, 0, |walk|, p0);
      return;
    }
    WalkKeepsRunInv(env, Full, sha, t.nextId, walk, |walk|, p0);
    var rows, specs, processed;
    alive, rows, specs, processed, left := WalkFull(env, db, sha, walk, left, t.nextId, p0);
    if alive {
      alive := FinishRun(env, db, provider, true, Full, sha, rows, specs, processed, left, t.nextId, walk[..|walk|]);
    }
  }

  /** The incremental run from its walk on. */
  method IndexChanged(env: Env, db: Database, provider: Embedding.Provider, sha: string, walk: seq<string>, changed: set<string>,
                      life: nat, ghost base: nat, ghost p0: Run)
    returns (alive: bool)
    requires p0 == Run(db.View(), [], [], 0, |provider.requests|, life, true)
    requires RunInv(env, base, [], p0) && IsWalk(env, env.treeOf(sha), walk)
    modifies db, db.embeddings, provider
    ensures var mode := Incremental(changed);
            var last := Finish(env, provider.answer, mode, sha, VisitAll(env, mode, sha, walk, |walk|, p0));
            db.View() == last.t && alive == last.alive
  {
    WalkKeepsRunInv(env, Incremental(changed), sha, base, walk, |walk|, p0);
    var rows, specs, processed, left;
    alive, rows, specs, processed, left := WalkIncremental(env, db, sha, walk, changed, life, p0);
    if alive {
      alive := FinishRun(env, db, provider, false, Incremental(changed), sha, rows, specs, processed, left, base, walk[..|walk|]);
    }
  }

  /** `diff` is what git prints for the base and the head, or None when it fails. */
  method RunIncrementalIndex(env: Env, db: Database, provider: Embedding.Provider, sha: string, walk: seq<string>,
                             diff: Option<set<string>>, life: nat)
    returns (alive: bool)
    requires Inv(env, db.View()) && IsWalk(env, env.treeOf(sha), walk)
    modifies db, db.embeddings, provider
    ensures var run := IndexRun(env, provider.answer, |old(provider.requests)|,
                                Incremental(Changed(old(db.View()), diff)), old(db.View()), sha, walk, life);
            db.View() == run.t && alive == run.alive
    ensures StaysSound(env, old(db.View()), db.View())
  {
    ghost var t, calls := db.View(), |provider.requests|;
    RunKeeps(env, provider.answer, calls, Incremental(Changed(t, diff)), t, sha, walk, life);
    var lastIndexedSha := db.repo.currentSha;
    var tree := env.treeOf(sha);
    ghost var mode := Incremental(Changed(t, diff));
    ghost var p0 := Prepare(mode, tree, t, calls, life);
    PrepareStep(env, mode, tree, t, calls, life);
    var left;
    alive, left := StartRun(db, life, calls);
    var changed: set<string> := {};
    if lastIndexedSha.Some? && diff.Some? {
      changed := diff.value;
    }
    alive, left := DeleteRemoved(db, tree, changed, alive, left, Run(db.View(), [], [], 0, calls, left, alive));
    if !alive {
      DeadWalksNoFurther(env, mode, sha, walk, 0, |walk|, p0);
      return;
    }
    alive := IndexChanged(env, db, provider, sha, walk, changed, left, t.nextId, p0);
  }

  lemma {:induction false} DeadWalksNoFurther(env: Env, mode: Mode, sha: string, walk: seq<string>, m: nat, n: nat, r: Run)
    requires m <= n <= |walk| && !VisitAll(env, mode, sha, walk, m, r).alive
    ensures VisitAll(env, mode, sha, walk, n, r) == VisitAll(env, mode, sha, walk, m, r)
  {
    if m < n { DeadWalksNoFurther(env, mode, sha, walk, m, n - 1, r); }
  }
}
