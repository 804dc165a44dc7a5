/** The theorems about indexing runs: self-healing, refinement, crash recovery, references. */
module IndexTheorems {
  import opened Wrappers
  import opened SourceChunks
  import opened IndexTables
  import opened IndexRuns
  import opened IndexSteps
  import Embedding

  // ----- the steps around the walk -----

  lemma StatusKeepsInv(env: Env, t: Tables, repo: RepoRow)
    requires Inv(env, t)
    ensures Inv(env, t.(repo := repo))
    ensures forall q :: SameAt(t, t.(repo := repo), q)
  {
    var u := t.(repo := repo);
    forall c | c in u.chunks ensures HasFile(u, c.fileId) { assert HasFile(t, c.fileId); }
  }

  /** Deleting file rows after nothing but the repository row has changed. */
  lemma PurgeAfterStart(env: Env, t: Tables, repo: RepoRow, paths: set<string>)
    requires Inv(env, t)
    ensures var u := DeleteFiles(t.(repo := repo), paths);
            && Inv(env, u) && u.nextId == t.nextId && u.repo == repo
            && (forall q :: q !in paths ==> SameAt(t, u, q))
            && (forall q :: q in paths ==> q !in u.files)
  {
    var s := t.(repo := repo);
    StatusKeepsInv(env, t, repo);
    PurgeStep(env, s, paths);
    forall q | q !in paths ensures SameAt(t, DeleteFiles(s, paths), q) {
      assert SameAt(t, s, q);
    }
  }

  lemma StartStep(t: Tables, calls: nat, life: nat)
    ensures var r := SetStatus(SetStatus(Begin(t, calls, life), CLONING), PARSING);
            r.t == t.(repo := r.t.repo) && r.rows == [] && r.specs == [] && r.t.repo.currentSha == t.repo.currentSha
  {}

  lemma PurgeRun(env: Env, t: Tables, r: Run, gone: set<string>)
    requires Inv(env, t) && r.t == t.(repo := r.t.repo) && r.rows == []
    ensures var after := Commit(r, DeleteFiles(r.t, gone));
            && RunInv(env, t.nextId, [], after) && after.rows == r.rows && after.specs == r.specs
            && (forall q :: q !in gone ==> SameAt(t, after.t, q))
            && (after.alive ==> forall q :: q in gone ==> q !in after.t.files)
            && after.t.repo == r.t.repo
  {
    PurgeAfterStart(env, t, r.t.repo, gone);
    StatusKeepsInv(env, t, r.t.repo);
  }

  lemma PrepareStep(env: Env, mode: Mode, tree: Tree, t: Tables, calls: nat, life: nat)
    requires Inv(env, t)
    ensures var r := Prepare(mode, tree, t, calls, life);
            && RunInv(env, t.nextId, [], r) && r.rows == [] && r.specs == []
            && (forall q :: q !in Gone(mode, tree) ==> SameAt(t, r.t, q))
            && (r.alive ==> forall q :: q in Gone(mode, tree) ==> q !in r.t.files)
            && r.t.repo.currentSha == t.repo.currentSha
  {
    var r := SetStatus(SetStatus(Begin(t, calls, life), CLONING), PARSING);
    StartStep(t, calls, life);
    if Gone(mode, tree) == {} {
      StatusKeepsInv(env, t, r.t.repo);
    } else {
      PurgeRun(env, t, r, Gone(mode, tree));
    }
  }

  lemma EmbedStep(env: Env, oracle: Embedding.Oracle, base: nat, seen: seq<string>, r: Run)
    requires RunInv(env, base, seen, r)
    ensures var after := EmbedRows(env, oracle, r);
            && RunInv(env, base, seen, after) && after.rows == r.rows && after.specs == r.specs
            && after.t == r.t.(embeddings := after.t.embeddings)
            && (after.alive ==> forall c :: c in r.rows ==> (c.contentHash, c.modelVersion) in after.t.embeddings)
  {
    var after := EmbedRows(env, oracle, r);
    if r.alive {
      Embedding.FinishedBatchCoversAll(r.t.embeddings, oracle, r.calls, Items(r.rows), env.modelVersion, r.life, "");
      forall c | c in r.t.chunks ensures HasFile(after.t, c.fileId) { assert HasFile(r.t, c.fileId); }
      forall c | c in r.rows
        ensures SeenFile(after.t, seen, c.fileId)
        ensures after.alive ==> (c.contentHash, c.modelVersion) in after.t.embeddings
      {
        assert SeenFile(r.t, seen, c.fileId);
        if after.alive { RowIsEmbedded(env, oracle, r, c); }
      }
    }
  }

  lemma RowIsEmbedded(env: Env, oracle: Embedding.Oracle, r: Run, c: ChunkRow)
    requires r.alive && c in r.rows && c.modelVersion == env.modelVersion && EmbedRows(env, oracle, r).alive
    ensures (c.contentHash, c.modelVersion) in EmbedRows(env, oracle, r).t.embeddings
  {
    Embedding.FinishedBatchCoversAll(r.t.embeddings, oracle, r.calls, Items(r.rows), env.modelVersion, r.life, c.contentHash);
    var k :| 0 <= k < |r.rows| && r.rows[k] == c;
    assert Items(r.rows)[k].0 == c.contentHash;
  }

  // ----- relationships -----

  lemma {:induction false} LastScopedIsARow(rows: seq<ChunkRow>, fileId: nat, symbol: string)
    ensures LastScoped(rows, fileId, symbol).Some? ==> LastScoped(rows, fileId, symbol).value in Ids(rows)
  {
    if rows == [] {
    } else {
      LastScopedIsARow(rows[..|rows| - 1], fileId, symbol);
      assert rows == rows[..|rows| - 1] + [rows[|rows| - 1]];
    }
  }

  lemma {:induction false} LastGlobalIsARow(rows: seq<ChunkRow>, symbol: string)
    ensures LastGlobal(rows, symbol).Some? ==> LastGlobal(rows, symbol).value in Ids(rows)
  {
    if rows == [] {
    } else {
      LastGlobalIsARow(rows[..|rows| - 1], symbol);
      assert rows == rows[..|rows| - 1] + [rows[|rows| - 1]];
    }
  }

  lemma {:induction false} ResolveFileEdgesOk(rows: seq<ChunkRow>, fileId: nat, rels: seq<Relationship>, n: nat)
    requires n <= |rels|
    ensures forall e :: e in ResolveFile(rows, fileId, rels, n) ==> EdgeOk(e, Ids(rows))
  {
    if n == 0 {
    } else {
      ResolveFileEdgesOk(rows, fileId, rels, n - 1);
      LastScopedIsARow(rows, fileId, PyStr(rels[n - 1].fromSymbol));
      LastScopedIsARow(rows, fileId, rels[n - 1].target);
      LastGlobalIsARow(rows, rels[n - 1].target);
    }
  }

  lemma {:induction false} ResolveEdgesOk(rows: seq<ChunkRow>, specs: seq<FileSpec>, n: nat)
    requires n <= |specs|
    ensures forall e :: e in Resolve(rows, specs, n) ==> EdgeOk(e, Ids(rows))
  {
    if n == 0 {
    } else {
      ResolveEdgesOk(rows, specs, n - 1);
      ResolveFileEdgesOk(rows, specs[n - 1].fileId, specs[n - 1].relationships, |specs[n - 1].relationships|);
    }
  }

  // ----- the last transaction -----

  ghost predicate Embedded(r: Run) {
    forall c :: c in r.rows ==> (c.contentHash, c.modelVersion) in r.t.embeddings
  }

  lemma FillKeepsInv(env: Env, base: nat, seen: seq<string>, r: Run)
    requires RunInv(env, base, seen, r) && Embedded(r)
    ensures Inv(env, Fill(r.t, r.rows, r.specs))
  {
    var u := Fill(r.t, r.rows, r.specs);
    ResolveEdgesOk(r.rows, r.specs, |r.specs|);
    assert Ids(u.chunks) == Ids(r.t.chunks) + Ids(r.rows);
    forall c | c in u.chunks ensures HasFile(u, c.fileId) {
      if c in r.t.chunks { assert HasFile(r.t, c.fileId); } else { assert SeenFile(r.t, seen, c.fileId); }
    }
  }

  lemma FillAt(t: Tables, rows: seq<ChunkRow>, specs: seq<FileSpec>, path: string)
    requires path in t.files
    ensures ChunksOf(Fill(t, rows, specs).chunks, t.files[path].id)
         == ChunksOf(t.chunks, t.files[path].id) + ChunksOf(rows, t.files[path].id)
  {
    ChunksOfAppend(t.chunks, rows, t.files[path].id);
  }

  /** A file that survives the last transaction has its old chunks and the run's rows for it. */
  ghost predicate StoredAt(r: Run, u: Tables, path: string) {
    path in u.files && path in r.t.files && u.files[path] == r.t.files[path]
    && ChunksOf(u.chunks, u.files[path].id)
       == ChunksOf(r.t.chunks, r.t.files[path].id) + ChunksOf(r.rows, r.t.files[path].id)
  }

  lemma StoreStep(env: Env, mode: Mode, base: nat, seen: seq<string>, r: Run, sha: string)
    requires RunInv(env, base, seen, r) && Embedded(r)
    ensures var u := StoreResults(mode, r.t, r.rows, r.specs, sha);
            && Inv(env, u) && u.repo.status == INDEXED && u.repo.currentSha == Some(sha)
            && (forall p :: p in u.files <==> p in r.t.files && (mode.Full? ==> r.t.files[p].sha == sha))
            && (forall p :: p in u.files ==> StoredAt(r, u, p))
  {
    var filled := Fill(r.t, r.rows, r.specs);
    var u := StoreResults(mode, r.t, r.rows, r.specs, sha);
    FillKeepsInv(env, base, seen, r);
    var swept := if mode.Full? then DeleteFiles(filled, StalePaths(filled, sha)) else filled;
    if mode.Full? { PurgeStep(env, filled, StalePaths(filled, sha)); }
    StatusKeepsInv(env, swept, u.repo);
    forall p | p in u.files ensures StoredAt(r, u, p) {
      FillAt(r.t, r.rows, r.specs, p);
      assert SameAt(filled, swept, p);
    }
  }

  lemma StatusKeepsRunInv(env: Env, base: nat, seen: seq<string>, r: Run, after: Run)
    requires RunInv(env, base, seen, r) && after.t == r.t.(repo := after.t.repo) && after.rows == r.rows
    ensures RunInv(env, base, seen, after)
  {
    StatusKeepsInv(env, r.t, after.t.repo);
    forall c | c in r.rows ensures SeenFile(after.t, seen, c.fileId) { assert SeenFile(r.t, seen, c.fileId); }
  }

  /** Between the walk and the last transaction only embeddings and the repository row change. */
  lemma ReadyStep(env: Env, oracle: Embedding.Oracle, base: nat, seen: seq<string>, r: Run)
    requires RunInv(env, base, seen, r)
    ensures var ready := Ready(env, oracle, r);
            && RunInv(env, base, seen, ready) && ready.rows == r.rows && ready.specs == r.specs
            && ready.t == r.t.(embeddings := ready.t.embeddings, repo := ready.t.repo)
            && ready.t.repo.currentSha == r.t.repo.currentSha
            && (ready.alive ==> r.alive && Embedded(ready))
  {
    var r1 := Commit(r, r.t.(repo := r.t.repo.(status := EMBEDDING, filesIndexed := r.processed)));
    StatusKeepsRunInv(env, base, seen, r, r1);
    EmbedStep(env, oracle, base, seen, r1);
    StatusKeepsRunInv(env, base, seen, EmbedRows(env, oracle, r1), Ready(env, oracle, r));
  }

  // ----- every run keeps the invariant, however it ends -----

  lemma WalkedStep(env: Env, mode: Mode, t: Tables, calls: nat, sha: string, walk: seq<string>, life: nat)
    requires Inv(env, t) && IsWalk(env, env.treeOf(sha), walk)
    ensures RunInv(env, t.nextId, walk, Walked(env, mode, t, calls, sha, walk, life))
  {
    PrepareStep(env, mode, env.treeOf(sha), t, calls, life);
    WalkKeepsRunInv(env, mode, sha, t.nextId, walk, |walk|, Prepare(mode, env.treeOf(sha), t, calls, life));
    assert walk[..|walk|] == walk;
  }

  /**
   References never dangle and stamps never lie: foreign keys from chunks to files and to
   embeddings, both ends of every edge, and the stamp of every file row, after any prefix
   of any run.
   */
  lemma EveryRunKeepsInv(env: Env, oracle: Embedding.Oracle, calls: nat, mode: Mode, t: Tables, sha: string,
                         walk: seq<string>, life: nat)
    requires Inv(env, t) && IsWalk(env, env.treeOf(sha), walk)
    ensures Inv(env, IndexRun(env, oracle, calls, mode, t, sha, walk, life).t)
  {
    var w := Walked(env, mode, t, calls, sha, walk, life);
    WalkedStep(env, mode, t, calls, sha, walk, life);
    ReadyStep(env, oracle, t.nextId, walk, w);
    var ready := Ready(env, oracle, w);
    if ready.alive { StoreStep(env, mode, t.nextId, walk, ready, sha); }
  }

  // ----- exactness, path by path -----

  /** The paths on which an incremental run acts. */
  predicate Reached(env: Env, changed: set<string>, tree: Tree, path: string) {
    (changed == {} || path in changed)
    && if path in tree && tree[path].Regular? then !env.inGitRoot(path)
       else path in changed && !Exists(tree, path)
  }

  lemma AliveWalk(env: Env, mode: Mode, t: Tables, calls: nat, sha: string, walk: seq<string>, life: nat, path: string)
    requires Inv(env, t) && IsWalk(env, env.treeOf(sha), walk)
    requires Walked(env, mode, t, calls, sha, walk, life).alive
    ensures Prepare(mode, env.treeOf(sha), t, calls, life).alive
    ensures PathState(env, mode, sha, path in walk, Prepare(mode, env.treeOf(sha), t, calls, life).t,
                      Walked(env, mode, t, calls, sha, walk, life), path)
  {
    var tree := env.treeOf(sha);
    var p := Prepare(mode, tree, t, calls, life);
    PrepareStep(env, mode, tree, t, calls, life);
    PathAfterWalk(env, mode, sha, t.nextId, walk, |walk|, p, path);
    AliveBefore(env, mode, sha, walk, 0, |walk|, p);
    assert walk[..|walk|] == walk;
  }
}
