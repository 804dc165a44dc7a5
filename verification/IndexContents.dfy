/**
 What a stored chunk row says besides its chunk: the hash of its text, the language of its
 path, and, through the hash, the vector of its text. Over every history of runs.
 */
module IndexContents {
  import opened Wrappers
  import opened SourceChunks
  import opened IndexTables
  import opened IndexRuns
  import opened IndexSteps
  import opened IndexTheorems
  import opened IndexExactness
  import Embedding

  /** The row carries the hash of its own text and the settings' model version. */
  predicate WellHashed(env: Env, c: ChunkRow) {
    c.contentHash == env.hash(c.chunk.content) && c.modelVersion == env.modelVersion
  }

  /** It belongs to this path, and has the path's language. */
  predicate RowOfPath(env: Env, t: Tables, c: ChunkRow, path: string) {
    path in t.files && t.files[path].id == c.fileId && env.languageOf(path) == Some(c.language)
  }

  ghost predicate HasPath(env: Env, t: Tables, c: ChunkRow) {
    exists path :: RowOfPath(env, t, c, path)
  }

  /** Every stored chunk is well hashed and has the language of its path. */
  ghost predicate Labelled(env: Env, t: Tables) {
    forall c :: c in t.chunks ==> WellHashed(env, c) && HasPath(env, t, c)
  }

  /** And so are the rows that a run has collected. */
  ghost predicate RowsLabelled(env: Env, r: Run) {
    Labelled(env, r.t) && forall c :: c in r.rows ==> WellHashed(env, c) && HasPath(env, r.t, c)
  }

  lemma PathIsUnique(env: Env, t: Tables, c: ChunkRow, p: string, q: string)
    requires Valid(t) && RowOfPath(env, t, c, p) && q in t.files && t.files[q].id == c.fileId
    ensures p == q
  {}

  /** Rows that remain, in files that keep their ids, stay as they are. */
  lemma FewerRowsLabelled(env: Env, t: Tables, u: Tables)
    requires Labelled(env, t) && Valid(t) && Valid(u) && ChunksWithin(t, u)
    requires forall p, c :: c in u.chunks && p in u.files && u.files[p].id == c.fileId ==> p in t.files && t.files[p].id == c.fileId
    ensures Labelled(env, u)
  {
    forall c | c in u.chunks ensures HasPath(env, u, c) {
      assert HasFile(u, c.fileId) && HasPath(env, t, c);
      var q :| q in u.files && u.files[q].id == c.fileId;
      var p :| RowOfPath(env, t, c, p);
      PathIsUnique(env, t, c, p, q);
      assert RowOfPath(env, u, c, q);
    }
  }

  lemma UpsertLabelled(env: Env, t: Tables, u: Tables, path: string, a: Action, sha: string)
    requires a.Index? && Labelled(env, t) && Valid(t) && UpsertEffect(env, t, u, path, a, sha)
    ensures Labelled(env, u)
  {
    forall p, c | c in u.chunks && p in u.files && u.files[p].id == c.fileId ensures p in t.files && t.files[p].id == c.fileId {
      NoChunksOf(u.chunks, u.files[path].id);
      assert p != path;
      assert SameAt(t, u, p);
    }
    FewerRowsLabelled(env, t, u);
  }

  /** A collected row keeps its path when another file is visited. */
  lemma RowKeepsPath(env: Env, seen: seq<string>, path: string, t: Tables, u: Tables, c: ChunkRow)
    requires Valid(t) && HasPath(env, t, c) && SeenFile(t, seen, c.fileId) && path !in seen
    requires forall q :: q != path ==> SameAt(t, u, q)
    ensures HasPath(env, u, c)
  {
    var p :| RowOfPath(env, t, c, p);
    var q :| q in seen && q in t.files && t.files[q].id == c.fileId;
    PathIsUnique(env, t, c, p, q);
    assert SameAt(t, u, q);
    assert RowOfPath(env, u, c, q);
  }

  lemma NewRowsLabelled(env: Env, t: Tables, path: string, language: string, chunks: seq<Chunk>, nextId: nat)
    requires path in t.files && env.languageOf(path) == Some(language)
    ensures forall c :: c in MakeRows(env, t.files[path].id, language, chunks, nextId) ==> WellHashed(env, c) && HasPath(env, t, c)
  {
    forall c | c in MakeRows(env, t.files[path].id, language, chunks, nextId) ensures HasPath(env, t, c) {
      assert RowOfPath(env, t, c, path);
    }
  }

  lemma SamePaths(env: Env, t: Tables, u: Tables, c: ChunkRow)
    requires t.files == u.files && HasPath(env, t, c)
    ensures HasPath(env, u, c)
  {
    var p :| RowOfPath(env, t, c, p);
    assert RowOfPath(env, u, c, p);
  }

  lemma VisitLabelled(env: Env, mode: Mode, sha: string, base: nat, seen: seq<string>, path: string, r: Run)
    requires RunInv(env, base, seen, r) && RowsLabelled(env, r) && path !in seen && !env.inGitRoot(path)
    ensures RowsLabelled(env, Visit(env, mode, sha, path, r))
  {
    var a, after := ActionFor(env, mode, env.treeOf(sha), path), Visit(env, mode, sha, path, r);
    if a.Index? && after.alive {
      IndexedVisitLabelled(env, mode, sha, base, seen, path, r);
    } else if a.Purge? && after.alive {
      PurgeStep(env, r.t, {path});
      FewerRowsLabelled(env, r.t, after.t);
      forall c | c in r.rows ensures HasPath(env, after.t, c) { RowKeepsPath(env, seen, path, r.t, after.t, c); }
    }
  }

  lemma IndexedVisitLabelled(env: Env, mode: Mode, sha: string, base: nat, seen: seq<string>, path: string, r: Run)
    requires RunInv(env, base, seen, r) && RowsLabelled(env, r) && path !in seen && !env.inGitRoot(path)
    requires ActionFor(env, mode, env.treeOf(sha), path).Index? && Visit(env, mode, sha, path, r).alive
    ensures RowsLabelled(env, Visit(env, mode, sha, path, r))
  {
    var a, after := ActionFor(env, mode, env.treeOf(sha), path), Visit(env, mode, sha, path, r);
    var u := UpsertFile(env, mode, r.t, path, a, sha);
    var more := MakeRows(env, u.files[path].id, a.language, env.chunkFile(a.content, a.language), u.nextId);
    UpsertStep(env, mode, r.t, path, a, sha);
    UpsertLabelled(env, r.t, u, path, a, sha);
    NewRowsLabelled(env, u, path, a.language, env.chunkFile(a.content, a.language), u.nextId);
    assert after.rows == r.rows + more && after.t.files == u.files && after.t.chunks == u.chunks;
    forall c | c in after.rows ensures WellHashed(env, c) && HasPath(env, after.t, c) {
      if c in r.rows { RowKeepsPath(env, seen, path, r.t, u, c); }
      SamePaths(env, u, after.t, c);
    }
    forall c | c in after.t.chunks ensures HasPath(env, after.t, c) { SamePaths(env, u, after.t, c); }
  }

  lemma {:induction false} WalkLabelled(env: Env, mode: Mode, sha: string, base: nat, walk: seq<string>, n: nat, r: Run)
    requires n <= |walk| && IsWalk(env, env.treeOf(sha), walk) && RunInv(env, base, [], r) && RowsLabelled(env, r)
    ensures RowsLabelled(env, VisitAll(env, mode, sha, walk, n, r))
  {
    for k := 0 to n
      invariant RowsLabelled(env, VisitAll(env, mode, sha, walk, k, r))
    {
      NextLabelled(env, mode, sha, base, walk, k, r);
    }
  }

  lemma NextLabelled(env: Env, mode: Mode, sha: string, base: nat, walk: seq<string>, n: nat, r: Run)
    requires n < |walk| && IsWalk(env, env.treeOf(sha), walk) && RunInv(env, base, [], r)
    requires RowsLabelled(env, VisitAll(env, mode, sha, walk, n, r))
    ensures RowsLabelled(env, VisitAll(env, mode, sha, walk, n + 1, r))
  {
    WalkKeepsRunInv(env, mode, sha, base, walk, n, r);
    assert walk[n] in walk && walk[n] !in walk[..n];
    VisitLabelled(env, mode, sha, base, walk[..n], walk[n], VisitAll(env, mode, sha, walk, n, r));
  }

  lemma PreparedLabelled(env: Env, mode: Mode, tree: Tree, t: Tables, calls: nat, life: nat)
    requires Inv(env, t) && Labelled(env, t)
    ensures RowsLabelled(env, Prepare(mode, tree, t, calls, life))
  {
    var r := Prepare(mode, tree, t, calls, life);
    PrepareStep(env, mode, tree, t, calls, life);
    PreparedRows(mode, tree, t, calls, life);
    FewerRowsLabelled(env, t, r.t);
  }

  lemma PreparedRows(mode: Mode, tree: Tree, t: Tables, calls: nat, life: nat)
    ensures var u := Prepare(mode, tree, t, calls, life).t;
            ChunksWithin(t, u) && forall p :: p in u.files ==> p in t.files && u.files[p] == t.files[p]
  {
    KeepChunksMembers(t.chunks, FileIds(t, Gone(mode, tree)));
  }

  lemma WalkedLabelled(env: Env, mode: Mode, t: Tables, calls: nat, sha: string, walk: seq<string>, life: nat)
    requires Inv(env, t) && IsWalk(env, env.treeOf(sha), walk) && Labelled(env, t)
    ensures RowsLabelled(env, Walked(env, mode, t, calls, sha, walk, life))
  {
    PreparedLabelled(env, mode, env.treeOf(sha), t, calls, life);
    PrepareStep(env, mode, env.treeOf(sha), t, calls, life);
    WalkLabelled(env, mode, sha, t.nextId, walk, |walk|, Prepare(mode, env.treeOf(sha), t, calls, life));
  }

  lemma StoredLabelled(env: Env, mode: Mode, base: nat, seen: seq<string>, r: Run, sha: string)
    requires RunInv(env, base, seen, r) && Embedded(r) && RowsLabelled(env, r)
    ensures Labelled(env, StoreResults(mode, r.t, r.rows, r.specs, sha))
  {
    var filled, u := Fill(r.t, r.rows, r.specs), StoreResults(mode, r.t, r.rows, r.specs, sha);
    FillKeepsInv(env, base, seen, r);
    StoreStep(env, mode, base, seen, r, sha);
    forall c | c in filled.chunks ensures HasPath(env, filled, c) { SamePaths(env, r.t, filled, c); }
    KeepChunksMembers(filled.chunks, FileIds(filled, StalePaths(filled, sha)));
    FewerRowsLabelled(env, filled, u);
  }

  lemma SameRowsLabelled(env: Env, r: Run, after: Run)
    requires RowsLabelled(env, r) && after.t.files == r.t.files && after.t.chunks == r.t.chunks && after.rows == r.rows
    ensures RowsLabelled(env, after)
  {
    forall c | c in r.t.chunks ensures HasPath(env, after.t, c) { SamePaths(env, r.t, after.t, c); }
    forall c | c in r.rows ensures HasPath(env, after.t, c) { SamePaths(env, r.t, after.t, c); }
  }

  /** However a run ends, every stored chunk has the hash of its text and the language of its path. */
  lemma EveryRunLabels(env: Env, oracle: Embedding.Oracle, calls: nat, mode: Mode, t: Tables, sha: string, walk: seq<string>,
                       life: nat)
    requires Inv(env, t) && IsWalk(env, env.treeOf(sha), walk) && Labelled(env, t)
    ensures Labelled(env, IndexRun(env, oracle, calls, mode, t, sha, walk, life).t)
  {
    var w := Walked(env, mode, t, calls, sha, walk, life);
    WalkedLabelled(env, mode, t, calls, sha, walk, life);
    WalkedStep(env, mode, t, calls, sha, walk, life);
    ReadyStep(env, oracle, t.nextId, walk, w);
    var ready := Ready(env, oracle, w);
    SameRowsLabelled(env, w, ready);
    if ready.alive { StoredLabelled(env, mode, t.nextId, walk, ready, sha); }
  }

  lemma {:induction false} HistoryLabels(env: Env, t: Tables, jobs: seq<Job>)
    requires Inv(env, t) && Walks(env, jobs) && Labelled(env, t)
    ensures Labelled(env, After(env, t, jobs))
  {
    if jobs == [] {
    } else {
      var last := jobs[|jobs| - 1];
      HistoryLabels(env, t, jobs[..|jobs| - 1]);
      HistoryKeepsInv(env, t, jobs[..|jobs| - 1]);
      EveryRunLabels(env, last.oracle, last.calls, last.mode, After(env, t, jobs[..|jobs| - 1]), last.sha, last.walk, last.life);
    }
  }

  // ----- vectors -----

  /** The store holds, under each hash of this model version, the vector of the text with that hash. */
  ghost predicate Sound(env: Env, store: Embedding.Store, embed: string -> Embedding.Vector) {
    Embedding.Sound(store, env.modelVersion, env.hash, embed)
  }

  lemma ItemsAreHashed(env: Env, rows: seq<ChunkRow>)
    requires forall c :: c in rows ==> WellHashed(env, c)
    ensures forall k :: 0 <= k < |Items(rows)| ==> Items(rows)[k].0 == env.hash(Items(rows)[k].1)
  {
    forall k | 0 <= k < |Items(rows)| ensures Items(rows)[k].0 == env.hash(Items(rows)[k].1) {
      assert rows[k] in rows;
    }
  }

  lemma ReadySound(env: Env, oracle: Embedding.Oracle, w: Run, embed: string -> Embedding.Vector)
    requires RowsLabelled(env, w) && Embedding.InOrder(oracle, embed) && Embedding.Injective(env.hash)
    requires Sound(env, w.t.embeddings, embed)
    ensures Sound(env, Ready(env, oracle, w).t.embeddings, embed)
  {
    var r := Commit(w, w.t.(repo := w.t.repo.(status := EMBEDDING, filesIndexed := w.processed)));
    ItemsAreHashed(env, w.rows);
    if r.alive {
      Embedding.StoredVectorsAreTheirOwn(r.t.embeddings, oracle, r.calls, Items(r.rows), env.modelVersion, r.life, env.hash, embed);
    }
  }

  lemma {:induction false} WalkKeepsStore(env: Env, mode: Mode, sha: string, walk: seq<string>, n: nat, r: Run)
    requires n <= |walk|
    ensures VisitAll(env, mode, sha, walk, n, r).t.embeddings == r.t.embeddings
  {
    if n == 0 {
    } else {
      WalkKeepsStore(env, mode, sha, walk, n - 1, r);
    }
  }

  lemma EveryRunIsSound(env: Env, oracle: Embedding.Oracle, calls: nat, mode: Mode, t: Tables, sha: string, walk: seq<string>,
                        life: nat, embed: string -> Embedding.Vector)
    requires Inv(env, t) && IsWalk(env, env.treeOf(sha), walk) && Labelled(env, t)
    requires Embedding.InOrder(oracle, embed) && Embedding.Injective(env.hash) && Sound(env, t.embeddings, embed)
    ensures Sound(env, IndexRun(env, oracle, calls, mode, t, sha, walk, life).t.embeddings, embed)
  {
    WalkedLabelled(env, mode, t, calls, sha, walk, life);
    WalkKeepsStore(env, mode, sha, walk, |walk|, Prepare(mode, env.treeOf(sha), t, calls, life));
    ReadySound(env, oracle, Walked(env, mode, t, calls, sha, walk, life), embed);
  }

  ghost predicate InOrderJobs(jobs: seq<Job>, embed: string -> Embedding.Vector) {
    forall k :: 0 <= k < |jobs| ==> Embedding.InOrder(jobs[k].oracle, embed)
  }

  lemma {:induction false} HistoryIsSound(env: Env, t: Tables, jobs: seq<Job>, embed: string -> Embedding.Vector)
    requires Inv(env, t) && Walks(env, jobs) && Labelled(env, t)
    requires InOrderJobs(jobs, embed) && Embedding.Injective(env.hash) && Sound(env, t.embeddings, embed)
    ensures Sound(env, After(env, t, jobs).embeddings, embed)
  {
    if jobs == [] {
    } else {
      var init, last := jobs[..|jobs| - 1], jobs[|jobs| - 1];
      HistoryIsSound(env, t, init, embed);
      HistoryLabels(env, t, init);
      HistoryKeepsInv(env, t, init);
      assert Embedding.InOrder(jobs[|jobs| - 1].oracle, embed);
      EveryRunIsSound(env, last.oracle, last.calls, last.mode, After(env, t, init), last.sha, last.walk, last.life, embed);
    }
  }

  /**
   End to end: after any history of full and incremental runs of a newly connected
   repository, each cut off anywhere, with providers that answer in order and a hash without
   collisions, every stored chunk is stored under the hash of its own text, with the language
   of its path, and the vector under that hash is the vector of its own text.
   */
  lemma StoredChunksAreTheirOwn(env: Env, store: Embedding.Store, jobs: seq<Job>, embed: string -> Embedding.Vector, c: ChunkRow)
    requires Walks(env, jobs) && InOrderJobs(jobs, embed) && Embedding.Injective(env.hash) && Sound(env, store, embed)
    requires c in After(env, NewRepository(store), jobs).chunks
    ensures var t := After(env, NewRepository(store), jobs);
            && c.contentHash == env.hash(c.chunk.content)
            && (exists p :: p in t.files && t.files[p].id == c.fileId && env.languageOf(p) == Some(c.language))
            && (c.contentHash, c.modelVersion) in t.embeddings
            && t.embeddings[(c.contentHash, c.modelVersion)] == embed(c.chunk.content)
  {
    var t := After(env, NewRepository(store), jobs);
    HistoryKeepsInv(env, NewRepository(store), jobs);
    HistoryLabels(env, NewRepository(store), jobs);
    HistoryIsSound(env, NewRepository(store), jobs, embed);
    var p :| RowOfPath(env, t, c, p);
  }
}
