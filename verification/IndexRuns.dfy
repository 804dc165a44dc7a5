/**
 One indexing run as a function: which transactions it executes, in which order, on which
 tables (worker/src/indexing/full_index.py and incremental_index.py).

 A run owns `life` more transactions; when they are used up the worker is dead and nothing
 further happens.  Every prefix of a run is the run with a shorter life.
 */
module IndexRuns {
  import opened Wrappers
  import opened SourceChunks
  import opened IndexTables
  import Embedding

  /**
   What a clone holds at a path. A link may or may not resolve to an existing file. A path
   below a linked directory has no entry of its own, but os.path.exists finds it.
   */
  datatype Entry = Regular(size: nat, content: string) | Link(resolves: bool) | Directory | ThroughLink
  type Tree = map<string, Entry>

  /** The code and settings that the runs use but do not define. */
  datatype Env = Env(
    treeOf: string -> Tree,                                  // the clone of a commit
    languageOf: string -> Option<string>,                    // LANGUAGE_BY_EXT of the extension
    excluded: (string, nat) -> bool,                         // should_exclude at the configured size limit
    inGitRoot: string -> bool,                               // ".git" occurs in the directory's path
    chunkFile: (string, string) -> seq<Chunk>,
    extract: (string, string, seq<Chunk>) -> seq<Relationship>,
    hash: string -> string,
    modelVersion: string)

  /** `changed` is the diff's set of paths; an empty set makes the walk visit every file. */
  datatype Mode = Full | Incremental(changed: set<string>)

  datatype FileSpec = FileSpec(fileId: nat, relationships: seq<Relationship>)

  datatype Run = Run(t: Tables, rows: seq<ChunkRow>, specs: seq<FileSpec>, processed: nat,
                     calls: nat, life: nat, alive: bool)

  function Begin(t: Tables, calls: nat, life: nat): Run {
    Run(t, [], [], 0, calls, life, true)
  }

  /** One engine.begin() block. */
  function Commit(r: Run, after: Tables): Run {
    if !r.alive || r.life == 0 then r.(alive := false)
    else r.(t := after, life := r.life - 1)
  }

  function SetStatus(r: Run, status: Status): Run {
    Commit(r, r.t.(repo := r.t.repo.(status := status)))
  }

  // ----- the walk -----

  datatype Action = Skip | Purge | Index(language: string, size: nat, content: string)

  function ActionFor(env: Env, mode: Mode, tree: Tree, path: string): Action {
    if mode.Incremental? && mode.changed != {} && path !in mode.changed then Skip
    else if path !in tree || !tree[path].Regular? then Skip
    else if env.excluded(path, tree[path].size) || env.languageOf(path).None? then
      if mode.Full? then Skip else Purge
    else Index(env.languageOf(path).value, tree[path].size, tree[path].content)
  }

  function UpsertFile(env: Env, mode: Mode, t: Tables, path: string, a: Action, sha: string): Tables
    requires a.Index?
  {
    if path in t.files then
      var row := t.files[path];
      var language := if mode.Full? then a.language else row.language;
      DeleteChunks(t, {row.id}).(files := t.files[path := FileRow(row.id, language, env.hash(a.content), a.size, sha)])
    else
      t.(files := t.files[path := FileRow(t.nextId, a.language, env.hash(a.content), a.size, sha)],
         nextId := t.nextId + 1)
  }

  function MakeRows(env: Env, fileId: nat, language: string, chunks: seq<Chunk>, nextId: nat): seq<ChunkRow> {
    seq(|chunks|, k requires 0 <= k < |chunks| =>
      ChunkRow(nextId + k, fileId, chunks[k], language, env.hash(chunks[k].content), env.modelVersion))
  }

  function Visit(env: Env, mode: Mode, sha: string, path: string, r: Run): Run {
    var a := ActionFor(env, mode, env.treeOf(sha), path);
    match a
    case Skip => r
    case Purge => Commit(r, DeleteFiles(r.t, {path}))
    case Index(language, size, content) =>
      var r1 := Commit(r, UpsertFile(env, mode, r.t, path, a, sha));
      if !r1.alive then r1
      else
        var fileId := r1.t.files[path].id;
        var chunks := env.chunkFile(content, language);
        r1.(rows := r1.rows + MakeRows(env, fileId, language, chunks, r1.t.nextId),
            specs := r1.specs + [FileSpec(fileId, env.extract(content, language, chunks))],
            processed := r1.processed + 1,
            t := r1.t.(nextId := r1.t.nextId + |chunks|))
  }

  /** The first n files of the walk. */
  function VisitAll(env: Env, mode: Mode, sha: string, walk: seq<string>, n: nat, r: Run): Run
    requires n <= |walk|
  {
    if n == 0 then r
    else Visit(env, mode, sha, walk[n - 1], VisitAll(env, mode, sha, walk, n - 1, r))
  }

  // ----- relationships -----

  /** str() of an optional name: None becomes the string "None". */
  function PyStr(name: Option<string>): string {
    if name.Some? then name.value else "None"
  }

  /** scoped_symbol_to_chunk_id after all rows are inserted: the last row wins. */
  function LastScoped(rows: seq<ChunkRow>, fileId: nat, symbol: string): Option<nat> {
    if rows == [] then None
    else
      var last := rows[|rows| - 1];
      if last.fileId == fileId && last.chunk.symbol == symbol then Some(last.id)
      else LastScoped(rows[..|rows| - 1], fileId, symbol)
  }

  /** symbol_to_chunk_id after all rows are inserted. */
  function LastGlobal(rows: seq<ChunkRow>, symbol: string): Option<nat> {
    if rows == [] then None
    else
      var last := rows[|rows| - 1];
      if last.chunk.symbol == symbol then Some(last.id) else LastGlobal(rows[..|rows| - 1], symbol)
  }

  function Target(rows: seq<ChunkRow>, fileId: nat, name: string): Option<nat> {
    var scoped := LastScoped(rows, fileId, name);
    if scoped.Some? then scoped else LastGlobal(rows, name)
  }

  function ResolveFile(rows: seq<ChunkRow>, fileId: nat, rels: seq<Relationship>, n: nat): seq<EdgeRow>
    requires n <= |rels|
  {
    if n == 0 then []
    else
      var before := ResolveFile(rows, fileId, rels, n - 1);
      var rel := rels[n - 1];
      var from := LastScoped(rows, fileId, PyStr(rel.fromSymbol));
      if from.None? then before
      else
        var to := Target(rows, fileId, rel.target);
        before + [EdgeRow(from.value, to, rel.kind, if to.Some? then None else Some(rel.target))]
  }

  function Resolve(rows: seq<ChunkRow>, specs: seq<FileSpec>, n: nat): seq<EdgeRow>
    requires n <= |specs|
  {
    if n == 0 then []
    else
      var spec := specs[n - 1];
      Resolve(rows, specs, n - 1) + ResolveFile(rows, spec.fileId, spec.relationships, |spec.relationships|)
  }

  // ----- the rest of a run -----

  function Items(rows: seq<ChunkRow>): seq<Embedding.Item> {
    seq(|rows|, k requires 0 <= k < |rows| => (rows[k].contentHash, rows[k].chunk.content))
  }

  function EmbedRows(env: Env, oracle: Embedding.Oracle, r: Run): Run {
    if !r.alive then r
    else
      var b := Embedding.Run(r.t.embeddings, oracle, r.calls, Items(r.rows), env.modelVersion, r.life);
      r.(t := r.t.(embeddings := b.store), calls := b.calls, life := b.life, alive := b.outcome.Done?)
  }

  function Fill(t: Tables, rows: seq<ChunkRow>, specs: seq<FileSpec>): Tables {
    t.(chunks := t.chunks + rows, edges := t.edges + Resolve(rows, specs, |specs|))
  }

  /** The last transaction: chunks, edges, the sweep of a full run, and the repository row. */
  function StoreResults(mode: Mode, t: Tables, rows: seq<ChunkRow>, specs: seq<FileSpec>, sha: string): Tables {
    var filled := Fill(t, rows, specs);
    var swept := if mode.Full? then DeleteFiles(filled, StalePaths(filled, sha)) else filled;
    swept.(repo := swept.repo.(status := INDEXED, currentSha := Some(sha),
                               chunksIndexed := if mode.Full? then |rows| else swept.repo.chunksIndexed))
  }

  /** Everything between the walk and the last transaction. */
  function Ready(env: Env, oracle: Embedding.Oracle, r: Run): Run {
    var r1 := Commit(r, r.t.(repo := r.t.repo.(status := EMBEDDING, filesIndexed := r.processed)));
    SetStatus(EmbedRows(env, oracle, r1), STORING)
  }

  function Finish(env: Env, oracle: Embedding.Oracle, mode: Mode, sha: string, r: Run): Run {
    var ready := Ready(env, oracle, r);
    Commit(ready, StoreResults(mode, ready.t, ready.rows, ready.specs, sha))
  }

  /** os.path.exists, which follows links. */
  predicate Exists(tree: Tree, path: string) {
    path in tree && (tree[path].Link? ==> tree[path].resolves)
  }

  function Gone(mode: Mode, tree: Tree): set<string> {
    if mode.Full? then {} else set p | p in mode.changed && !Exists(tree, p)
  }

  /** Everything before the walk. */
  function Prepare(mode: Mode, tree: Tree, t: Tables, calls: nat, life: nat): Run {
    var r := SetStatus(SetStatus(Begin(t, calls, life), CLONING), PARSING);
    if Gone(mode, tree) == {} then r else Commit(r, DeleteFiles(r.t, Gone(mode, tree)))
  }

  function Walked(env: Env, mode: Mode, t: Tables, calls: nat, sha: string, walk: seq<string>, life: nat): Run {
    VisitAll(env, mode, sha, walk, |walk|, Prepare(mode, env.treeOf(sha), t, calls, life))
  }

  function IndexRun(env: Env, oracle: Embedding.Oracle, calls: nat, mode: Mode, t: Tables, sha: string,
                    walk: seq<string>, life: nat): Run {
    Finish(env, oracle, mode, sha, Walked(env, mode, t, calls, sha, walk, life))
  }

  /** The paths that the incremental run compares: none when there is no base or git fails. */
  function Changed(t: Tables, diff: Option<set<string>>): set<string> {
    if t.repo.currentSha.None? || diff.None? then {} else diff.value
  }

  // ----- what the runs are for -----

  /** The files that a full index of the tree holds. */
  predicate Eligible(env: Env, tree: Tree, path: string) {
    path in tree && tree[path].Regular? && !env.inGitRoot(path)
    && !env.excluded(path, tree[path].size) && env.languageOf(path).Some?
  }

  /** os.walk lists each file outside ".git" roots once; links may be missing, and nothing below a linked directory is listed. */
  ghost predicate IsWalk(env: Env, tree: Tree, walk: seq<string>) {
    && (forall i, j :: 0 <= i < j < |walk| ==> walk[i] != walk[j])
    && (forall p :: p in walk ==> p in tree && !tree[p].Directory? && !tree[p].ThroughLink? && !env.inGitRoot(p))
    && (forall p :: p in tree && tree[p].Regular? && !env.inGitRoot(p) ==> p in walk)
  }

  /** The index agrees with the tree at one path: the right row with the right chunks, or no row. */
  ghost predicate ExactAt(env: Env, tree: Tree, t: Tables, path: string) {
    if Eligible(env, tree, path) then
      var content, language := tree[path].content, env.languageOf(path).value;
      path in t.files
      && t.files[path].contentHash == env.hash(content) && t.files[path].size == tree[path].size
      && ChunksOf(t.chunks, t.files[path].id) == env.chunkFile(content, language)
    else path !in t.files
  }

  ghost predicate Exact(env: Env, tree: Tree, t: Tables) {
    forall p :: ExactAt(env, tree, t, p)
  }

  /** A row stamped with a commit is an eligible file of that commit. */
  ghost predicate Stamped(env: Env, t: Tables) {
    forall p :: p in t.files ==> Eligible(env, env.treeOf(t.files[p].sha), p)
                                 && env.languageOf(p) == Some(t.files[p].language)
  }

  ghost predicate Inv(env: Env, t: Tables) {
    Valid(t) && Stamped(env, t)
  }
}
