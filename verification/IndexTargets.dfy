/**
 Into which file the edge of a relationship goes, after a full run and after an incremental
 one. A name is resolved to the file itself if that defines it, and else to the last file
 of the walk that defines it, among the files that the run indexes.
 */
module IndexTargets {
  import opened Wrappers
  import opened SourceChunks
  import opened Sequences
  import opened IndexTables
  import opened IndexRuns
  import opened IndexSteps
  import opened IndexTheorems
  import opened IndexExactness
  import opened IndexEdges
  import opened IndexCalls
  import Embedding

  // ----- the rule, on trees and walks -----

  /** A run in this mode indexes the file, and one of its chunks has the name. */
  predicate IndexesName(env: Env, mode: Mode, tree: Tree, path: string, name: string) {
    ActionFor(env, mode, tree, path).Index? && DefinesName(env, tree, path, name)
  }

  /** The last of the first n walked files that the run indexes and that defines the name. */
  function LastDefiner(env: Env, mode: Mode, tree: Tree, walk: seq<string>, n: nat, name: string): Option<string>
    requires n <= |walk|
  {
    if n == 0 then None
    else if IndexesName(env, mode, tree, walk[n - 1], name) then Some(walk[n - 1])
    else LastDefiner(env, mode, tree, walk, n - 1, name)
  }

  function ResolvedFile(env: Env, mode: Mode, tree: Tree, walk: seq<string>, path: string, name: string): Option<string> {
    if DefinesName(env, tree, path, name) then Some(path) else LastDefiner(env, mode, tree, walk, |walk|, name)
  }

  lemma {:induction false} LastDefinerMeaning(env: Env, mode: Mode, tree: Tree, walk: seq<string>, n: nat, name: string)
    requires n <= |walk|
    ensures match LastDefiner(env, mode, tree, walk, n, name)
            case None => forall i :: 0 <= i < n ==> !IndexesName(env, mode, tree, walk[i], name)
            case Some(x) => exists i :: 0 <= i < n && walk[i] == x && IndexesName(env, mode, tree, x, name)
                                        && forall j :: i < j < n ==> !IndexesName(env, mode, tree, walk[j], name)
  {
    if n == 0 {
    } else {
      LastDefinerMeaning(env, mode, tree, walk, n - 1, name);
    }
  }

  // ----- the rows of a walk follow it -----

  /** The last row of that name belongs to the file with this id. */
  ghost predicate LastIn(rows: seq<ChunkRow>, name: string, fileId: nat) {
    exists k :: IsLast(rows, None, name, k) && rows[k].fileId == fileId
  }

  /** The rows so far, seen through the name. */
  ghost predicate RowsFollow(r: Run, name: string, q: Option<string>) {
    match q
    case None => !Defined(r.rows, None, name)
    case Some(x) => x in r.t.files && LastIn(r.rows, name, r.t.files[x].id)
  }

  lemma LastOfSum(a: seq<ChunkRow>, b: seq<ChunkRow>, name: string, fileId: nat)
    ensures LastIn(b, name, fileId) ==> LastIn(a + b, name, fileId)
    ensures !Defined(b, None, name) && LastIn(a, name, fileId) ==> LastIn(a + b, name, fileId)
  {
    if k :| IsLast(b, None, name, k) && b[k].fileId == fileId {
      assert IsLast(a + b, None, name, |a| + k);
    }
    if !Defined(b, None, name) && LastIn(a, name, fileId) {
      var k :| IsLast(a, None, name, k) && a[k].fileId == fileId;
      assert forall j :: 0 <= j < |b| ==> b[j] in b;
      assert IsLast(a + b, None, name, k);
    }
  }

  lemma {:induction false} DefinedHasLast(rows: seq<ChunkRow>, name: string, fileId: nat)
    requires Defined(rows, None, name) && forall c :: c in rows ==> c.fileId == fileId
    ensures LastIn(rows, name, fileId)
  {
    LookupMeaning(rows, None, name);
    var k :| IsLast(rows, None, name, k) && rows[k].id == LastGlobal(rows, name).value;
    assert rows[k] in rows;
  }

  /** The rows made for one file have the names that it defines. */
  lemma MadeRowsDefine(env: Env, fileId: nat, language: string, chunks: seq<Chunk>, nextId: nat, name: string)
    ensures var rows := MakeRows(env, fileId, language, chunks, nextId);
            && (forall c :: c in rows ==> c.fileId == fileId)
            && (Defined(rows, None, name) <==> exists k :: 0 <= k < |chunks| && chunks[k].symbol == name)
  {
    var rows := MakeRows(env, fileId, language, chunks, nextId);
    if k :| 0 <= k < |chunks| && chunks[k].symbol == name {
      assert rows[k] in rows && Named(rows[k], None, name);
    }
  }

  /** The rows that visiting an indexed file adds. */
  function RowsOfVisit(env: Env, mode: Mode, sha: string, path: string, r: Run): seq<ChunkRow>
    requires ActionFor(env, mode, env.treeOf(sha), path).Index?
  {
    var a := ActionFor(env, mode, env.treeOf(sha), path);
    var u := UpsertFile(env, mode, r.t, path, a, sha);
    MakeRows(env, u.files[path].id, a.language, env.chunkFile(a.content, a.language), u.nextId)
  }

  lemma IndexedVisitRows(env: Env, mode: Mode, sha: string, path: string, r: Run, name: string)
    requires !env.inGitRoot(path) && ActionFor(env, mode, env.treeOf(sha), path).Index?
    requires Visit(env, mode, sha, path, r).alive
    ensures var after, more := Visit(env, mode, sha, path, r), RowsOfVisit(env, mode, sha, path, r);
            && path in after.t.files && after.rows == r.rows + more
            && (forall c :: c in more ==> c.fileId == after.t.files[path].id)
            && (Defined(more, None, name) <==> DefinesName(env, env.treeOf(sha), path, name))
  {
    var a := ActionFor(env, mode, env.treeOf(sha), path);
    var u := UpsertFile(env, mode, r.t, path, a, sha);
    var chunks := env.chunkFile(a.content, a.language);
    MadeRowsDefine(env, u.files[path].id, a.language, chunks, u.nextId, name);
    assert Eligible(env, env.treeOf(sha), path) && ChunksIn(env, env.treeOf(sha), path) == chunks;
  }

  /** A visited file that defines the name becomes its last definer; another one changes nothing. */
  lemma IndexedVisitFollows(env: Env, mode: Mode, sha: string, path: string, r: Run, name: string, q: Option<string>)
    requires Inv(env, r.t) && !env.inGitRoot(path) && ActionFor(env, mode, env.treeOf(sha), path).Index?
    requires RowsFollow(r, name, q) && q != Some(path) && Visit(env, mode, sha, path, r).alive
    ensures RowsFollow(Visit(env, mode, sha, path, r), name,
                       if DefinesName(env, env.treeOf(sha), path, name) then Some(path) else q)
  {
    var after, more := Visit(env, mode, sha, path, r), RowsOfVisit(env, mode, sha, path, r);
    IndexedVisitRows(env, mode, sha, path, r, name);
    if DefinesName(env, env.treeOf(sha), path, name) {
      DefinedHasLast(more, name, after.t.files[path].id);
      LastOfSum(r.rows, more, name, after.t.files[path].id);
    } else if q.Some? {
      VisitElsewhere(env, mode, sha, q.value, path, r);
      LastOfSum(r.rows, more, name, r.t.files[q.value].id);
    }
  }

  lemma VisitFollows(env: Env, mode: Mode, sha: string, path: string, r: Run, name: string, q: Option<string>)
    requires Inv(env, r.t) && !env.inGitRoot(path)
    requires RowsFollow(r, name, q) && q != Some(path) && Visit(env, mode, sha, path, r).alive
    ensures RowsFollow(Visit(env, mode, sha, path, r), name,
                       if IndexesName(env, mode, env.treeOf(sha), path, name) then Some(path) else q)
  {
    if ActionFor(env, mode, env.treeOf(sha), path).Index? {
      IndexedVisitFollows(env, mode, sha, path, r, name, q);
    } else if q.Some? {
      VisitElsewhere(env, mode, sha, q.value, path, r);
    }
  }

  lemma NextFollows(env: Env, mode: Mode, sha: string, base: nat, walk: seq<string>, n: nat, r: Run, name: string)
    requires n < |walk| && IsWalk(env, env.treeOf(sha), walk) && RunInv(env, base, [], r)
    requires RowsFollow(VisitAll(env, mode, sha, walk, n, r), name, LastDefiner(env, mode, env.treeOf(sha), walk, n, name))
    requires VisitAll(env, mode, sha, walk, n + 1, r).alive
    ensures RowsFollow(VisitAll(env, mode, sha, walk, n + 1, r), name, LastDefiner(env, mode, env.treeOf(sha), walk, n + 1, name))
  {
    WalkKeepsRunInv(env, mode, sha, base, walk, n, r);
    LastDefinerMeaning(env, mode, env.treeOf(sha), walk, n, name);
    assert walk[n] in walk;
    VisitFollows(env, mode, sha, walk[n], VisitAll(env, mode, sha, walk, n, r), name,
                 LastDefiner(env, mode, env.treeOf(sha), walk, n, name));
  }

  /** Seen through a name, the collected rows are those of its last definer. */
  lemma {:induction false} WalkFollows(env: Env, mode: Mode, sha: string, base: nat, walk: seq<string>, n: nat, r: Run, name: string)
    requires n <= |walk| && IsWalk(env, env.treeOf(sha), walk) && RunInv(env, base, [], r) && r.rows == []
    requires VisitAll(env, mode, sha, walk, n, r).alive
    ensures RowsFollow(VisitAll(env, mode, sha, walk, n, r), name, LastDefiner(env, mode, env.treeOf(sha), walk, n, name))
  {
    for k := 0 to n
      invariant RowsFollow(VisitAll(env, mode, sha, walk, k, r), name, LastDefiner(env, mode, env.treeOf(sha), walk, k, name))
    {
      AliveBefore(env, mode, sha, walk, k + 1, n, r);
      NextFollows(env, mode, sha, base, walk, k, r, name);
    }
  }

  // ----- where an edge goes -----

  ghost predicate EdgeGoes(u: Tables, e: EdgeRow, name: string, q: Option<string>) {
    match q
    case None => e.to.None?
    case Some(x) => e.to.Some? && At(u, x, e.to.value, name)
  }

  /** Some edge that records the relationship goes into file q; None is an external edge. */
  ghost predicate GoesInto(u: Tables, path: string, rel: Relationship, q: Option<string>) {
    exists e :: e in u.edges && Records(u, path, rel, e) && EdgeGoes(u, e, rel.target, q)
  }

  /** The target that a lookup has found is a chunk of file q. */
  ghost predicate IsTarget(u: Tables, to: Option<nat>, name: string, q: Option<string>) {
    match q
    case None => to.None?
    case Some(x) => to.Some? && At(u, x, to.value, name)
  }

  lemma TargetIsUnique(u: Tables, to: Option<nat>, name: string, p: Option<string>, q: Option<string>)
    requires Valid(u) && IsTarget(u, to, name, p) && IsTarget(u, to, name, q)
    ensures p == q
  {
    if to.Some? { AtIsUnique(u, p.value, q.value, to.value, name, name); }
  }

  /** A relationship of an eligible file whose caller is one of the file's chunks. */
  predicate Called(env: Env, tree: Tree, path: string, rel: Relationship) {
    Eligible(env, tree, path) && rel in RelationshipsOf(env, tree, path) && DefinesName(env, tree, path, PyStr(rel.fromSymbol))
  }

  lemma FullGoesInto(env: Env, tree: Tree, t: Tables, path: string, rel: Relationship, q: Option<string>)
    requires FullyIndexed(env, tree, t) && Called(env, tree, path, rel)
    ensures path in t.files && (GoesInto(t, path, rel, q) <==> IsTarget(t, TargetId(t, path, rel), rel.target, q))
  {
    CallerIsKnown(env, tree, t, path, rel);
    EdgeOfIsStored(env, tree, t, path, rel);
    EdgeOfRecords(t, path, rel);
    if e :| e in t.edges && Records(t, path, rel, e) && EdgeGoes(t, e, rel.target, q) {
      RecordingEdgeIsEdgeOf(env, tree, t, path, rel, e);
    }
  }

  /** A kept edge goes where it went, and that is a file left alone. */
  lemma KeptEdgeGoes(env: Env, changed: set<string>, tree: Tree, t: Tables, w: Run, u: Tables, e: EdgeRow, name: string,
                     q: Option<string>)
    requires Outcome(env, changed, tree, t, w, u) && Kept(env, changed, tree, t, e)
    ensures EdgeGoes(t, e, name, q) <==> EdgeGoes(u, e, name, q)
    ensures EdgeGoes(u, e, name, q) && q.Some? ==> !Reached(env, changed, tree, q.value)
  {
    if q.Some? && e.to.Some? {
      var p, a := LeftAloneAt(env, changed, tree, t, w, u, e.to.value);
      if At(t, q.value, e.to.value, name) { AtIsUnique(t, q.value, p, e.to.value, name, a); }
      if At(u, q.value, e.to.value, name) { AtIsUnique(u, q.value, p, e.to.value, name, a); }
    }
  }

  /** A file that the run leaves alone keeps an edge if and only if that went into no file on which the run acts. */
  lemma UntouchedGoesInto(env: Env, changed: set<string>, tree: Tree, t: Tables, w: Run, u: Tables, path: string,
                          rel: Relationship, q: Option<string>)
    requires Outcome(env, changed, tree, t, w, u) && !Reached(env, changed, tree, path)
    ensures GoesInto(u, path, rel, q) <==> GoesInto(t, path, rel, q) && (q.Some? ==> !Reached(env, changed, tree, q.value))
  {
    if e :| e in t.edges && Records(t, path, rel, e) && EdgeGoes(t, e, rel.target, q)
            && (q.Some? ==> !Reached(env, changed, tree, q.value)) {
      UnreachedIsLeftAlone(env, changed, tree, t, path, e.from, PyStr(rel.fromSymbol));
      if q.Some? { UnreachedIsLeftAlone(env, changed, tree, t, q.value, e.to.value, rel.target); }
      assert Kept(env, changed, tree, t, e);
      KeptEdgeRecords(env, changed, tree, t, w, u, path, rel, e);
      KeptEdgeGoes(env, changed, tree, t, w, u, e, rel.target, q);
    }
    if e :| e in u.edges && Records(u, path, rel, e) && EdgeGoes(u, e, rel.target, q) {
      SideOfEdge(env, changed, tree, t, w, u, e, path, PyStr(rel.fromSymbol));
      KeptEdgeRecords(env, changed, tree, t, w, u, path, rel, e);
      KeptEdgeGoes(env, changed, tree, t, w, u, e, rel.target, q);
    }
  }

  /** The run's own edge for a relationship of a file that it indexes. */
  function RunEdge(w: Run, path: string, rel: Relationship): EdgeRow
    requires path in w.t.files && LastScoped(w.rows, w.t.files[path].id, PyStr(rel.fromSymbol)).Some?
  {
    var to := Target(w.rows, w.t.files[path].id, rel.target);
    EdgeRow(LastScoped(w.rows, w.t.files[path].id, PyStr(rel.fromSymbol)).value, to, rel.kind,
            if to.Some? then None else Some(rel.target))
  }

  lemma RunEdgeIsStored(env: Env, changed: set<string>, tree: Tree, t: Tables, w: Run, u: Tables, path: string, rel: Relationship)
    requires Outcome(env, changed, tree, t, w, u) && Reached(env, changed, tree, path) && Called(env, tree, path, rel)
    ensures path in w.t.files && LastScoped(w.rows, w.t.files[path].id, PyStr(rel.fromSymbol)).Some?
    ensures RunEdge(w, path, rel) in u.edges && Records(u, path, rel, RunEdge(w, path, rel))
  {
    assert IndexedWhenReached(env, changed, tree, w, path);
    var fid, caller := w.t.files[path].id, PyStr(rel.fromSymbol);
    var k :| 0 <= k < |ChunksIn(env, tree, path)| && ChunksIn(env, tree, path)[k].symbol == caller;
    var c := RowOfChunk(w.rows, fid, k);
    assert Named(c, Some(fid), caller);
    LookupMeaning(w.rows, Some(fid), caller);
    OneEdgeMeaning(w.rows, fid, rel, RunEdge(w, path, rel));
    IndexedEdgeIsStored(env, changed, tree, t, w, u, path, rel, RunEdge(w, path, rel));
    RunEdgeRecords(env, changed, tree, t, w, u, path, rel, RunEdge(w, path, rel));
  }

  lemma RecordingEdgeIsRunEdge(env: Env, changed: set<string>, tree: Tree, t: Tables, w: Run, u: Tables, path: string,
                               rel: Relationship, e: EdgeRow)
    requires Outcome(env, changed, tree, t, w, u) && Reached(env, changed, tree, path)
    requires e in u.edges && Records(u, path, rel, e)
    requires path in w.t.files && LastScoped(w.rows, w.t.files[path].id, PyStr(rel.fromSymbol)).Some?
    ensures e == RunEdge(w, path, rel)
  {
    SideOfEdge(env, changed, tree, t, w, u, e, path, PyStr(rel.fromSymbol));
    var p :| NewEdge(env, changed, tree, w, p, e);
    var spec := SpecOfFile(env, tree, w.t, p);
    var k :| 0 <= k < |spec.relationships| && EdgeFor(e, w.rows, spec.fileId, spec.relationships[k]);
    var other := spec.relationships[k];
    RunEdgeRecords(env, changed, tree, t, w, u, p, other, e);
    AtIsUnique(u, path, p, e.from, PyStr(rel.fromSymbol), PyStr(other.fromSymbol));
    SameTarget(u, e, rel.target, other.target);
    OneEdgeMeaning(w.rows, spec.fileId, other, e);
  }

  /** A file on which the run acts has exactly the run's edge. */
  lemma ChangedGoesInto(env: Env, changed: set<string>, tree: Tree, t: Tables, w: Run, u: Tables, path: string, rel: Relationship,
                        q: Option<string>)
    requires Outcome(env, changed, tree, t, w, u) && Reached(env, changed, tree, path) && Called(env, tree, path, rel)
    ensures path in w.t.files
    ensures GoesInto(u, path, rel, q) <==> IsTarget(u, Target(w.rows, w.t.files[path].id, rel.target), rel.target, q)
  {
    RunEdgeIsStored(env, changed, tree, t, w, u, path, rel);
    if e :| e in u.edges && Records(u, path, rel, e) && EdgeGoes(u, e, rel.target, q) {
      RecordingEdgeIsRunEdge(env, changed, tree, t, w, u, path, rel, e);
    }
  }

  // ----- the lookups of a run follow the rule -----

  /** The names that the chunks of one file define, as rows and as chunks. */
  lemma RowsOfFileDefine(env: Env, tree: Tree, rows: seq<ChunkRow>, fileId: nat, path: string, name: string)
    requires Eligible(env, tree, path) && ChunksOf(rows, fileId) == ChunksIn(env, tree, path)
    ensures Defined(rows, Some(fileId), name) <==> DefinesName(env, tree, path, name)
  {
    if c :| c in rows && Named(c, Some(fileId), name) {
      var k := ChunkOfRow(rows, fileId, c);
      assert ChunksIn(env, tree, path)[k].symbol == name;
    }
    if k :| 0 <= k < |ChunksIn(env, tree, path)| && ChunksIn(env, tree, path)[k].symbol == name {
      var c := RowOfChunk(rows, fileId, k);
      assert Named(c, Some(fileId), name);
    }
  }

  ghost predicate ChunksAmong(rows: seq<ChunkRow>, u: Tables) {
    forall c :: c in rows ==> c in u.chunks
  }

  lemma LookupInFile(u: Tables, rows: seq<ChunkRow>, path: string, name: string)
    requires ChunksAmong(rows, u) && path in u.files && Defined(rows, Some(u.files[path].id), name)
    ensures IsTarget(u, Target(rows, u.files[path].id, name), name, Some(path))
  {
    var fid := u.files[path].id;
    LookupMeaning(rows, Some(fid), name);
    var k :| IsLast(rows, Some(fid), name, k) && rows[k].id == LastScoped(rows, fid, name).value;
    assert IsRow(u, path, rows[k], rows[k].id, name);
  }

  lemma LookupInRun(u: Tables, rows: seq<ChunkRow>, fileId: nat, name: string, q: Option<string>)
    requires ChunksAmong(rows, u) && !Defined(rows, Some(fileId), name)
    requires match q case None => !Defined(rows, None, name)
                     case Some(x) => x in u.files && LastIn(rows, name, u.files[x].id)
    ensures IsTarget(u, Target(rows, fileId, name), name, q)
  {
    LookupMeaning(rows, Some(fileId), name);
    LookupMeaning(rows, None, name);
    if q.Some? {
      var k :| IsLast(rows, None, name, k) && rows[k].fileId == u.files[q.value].id;
      assert rows[k] in rows && Defined(rows, None, name) && IsLastId(rows, None, name, rows[k].id);
      LastIsUnique(rows, None, name, rows[k].id, LastGlobal(rows, name).value);
      assert IsRow(u, q.value, rows[k], rows[k].id, name);
    }
  }

  function WalkedJob(env: Env, t: Tables, job: Job): Run {
    Walked(env, job.mode, t, job.calls, job.sha, job.walk, job.life)
  }

  function HeadOf(env: Env, job: Job): Tree {
    env.treeOf(job.sha)
  }

  /** The file into which a run resolves the name for a caller in this file. */
  function ResolvedBy(env: Env, job: Job, path: string, name: string): Option<string> {
    ResolvedFile(env, job.mode, HeadOf(env, job), job.walk, path, name)
  }

  lemma WalkedJobFollows(env: Env, t: Tables, job: Job, name: string)
    requires Inv(env, t) && IsWalk(env, HeadOf(env, job), job.walk) && WalkedJob(env, t, job).alive
    ensures RowsFollow(WalkedJob(env, t, job), name, LastDefiner(env, job.mode, HeadOf(env, job), job.walk, |job.walk|, name))
  {
    PrepareStep(env, job.mode, HeadOf(env, job), t, job.calls, job.life);
    WalkFollows(env, job.mode, job.sha, t.nextId, job.walk, |job.walk|, Prepare(job.mode, HeadOf(env, job), t, job.calls, job.life), name);
  }

  predicate SameRow(t: Tables, u: Tables, path: string) {
    path in t.files && path in u.files && t.files[path] == u.files[path]
  }

  /** A finished run resolves by the rule. */
  lemma TargetFollows(env: Env, t: Tables, job: Job, u: Tables, rows: seq<ChunkRow>, path: string, name: string)
    requires Inv(env, t) && IsWalk(env, HeadOf(env, job), job.walk) && WalkedJob(env, t, job).alive
    requires rows == WalkedJob(env, t, job).rows && ChunksAmong(rows, u)
    requires Eligible(env, HeadOf(env, job), path) && path in u.files
    requires ChunksOf(rows, u.files[path].id) == ChunksIn(env, HeadOf(env, job), path)
    requires forall q :: IndexesName(env, job.mode, HeadOf(env, job), q, name) ==> SameRow(WalkedJob(env, t, job).t, u, q)
    ensures IsTarget(u, Target(rows, u.files[path].id, name), name, ResolvedBy(env, job, path, name))
  {
    RowsOfFileDefine(env, HeadOf(env, job), rows, u.files[path].id, path, name);
    if DefinesName(env, HeadOf(env, job), path, name) {
      LookupInFile(u, rows, path, name);
    } else {
      WalkedJobFollows(env, t, job, name);
      LastDefinerMeaning(env, job.mode, HeadOf(env, job), job.walk, |job.walk|, name);
      LookupInRun(u, rows, u.files[path].id, name, ResolvedBy(env, job, path, name));
    }
  }

  // ----- where the edges of the two runs go -----

  /** After a finished full run every relationship with a known caller goes exactly where the rule says. */
  lemma FullEdgeGoes(env: Env, t: Tables, job: Job, path: string, rel: Relationship, q: Option<string>)
    requires Inv(env, t) && IsWalk(env, HeadOf(env, job), job.walk) && job.mode.Full? && RunJob(env, t, job).alive
    requires Called(env, HeadOf(env, job), path, rel)
    ensures GoesInto(RunJob(env, t, job).t, path, rel, q) <==> q == ResolvedBy(env, job, path, rel.target)
  {
    var u, head := RunJob(env, t, job).t, HeadOf(env, job);
    FullRunIndexesFully(env, job.oracle, job.calls, t, job.sha, job.walk, job.life);
    FullRunReplacesEverything(env, job.oracle, job.calls, t, job.sha, job.walk, job.life);
    FullGoesInto(env, head, u, path, rel, q);
    assert ExactAt(env, head, u, path);
    forall x | IndexesName(env, Full, head, x, rel.target) ensures SameRow(WalkedJob(env, t, job).t, u, x) {
      assert ExactAt(env, head, u, x);
    }
    TargetFollows(env, t, job, u, u.chunks, path, rel.target);
    if GoesInto(u, path, rel, q) {
      TargetIsUnique(u, TargetId(u, path, rel), rel.target, q, ResolvedBy(env, job, path, rel.target));
    }
  }

  lemma JobOutcome(env: Env, t: Tables, job: Job)
    requires Inv(env, t) && IsWalk(env, HeadOf(env, job), job.walk) && job.mode.Incremental? && RunJob(env, t, job).alive
    ensures WalkedJob(env, t, job).alive
    ensures Outcome(env, job.mode.changed, HeadOf(env, job), t, WalkedJob(env, t, job), RunJob(env, t, job).t)
  {
    StoredTables(env, job.oracle, job.calls, job.mode.changed, t, job.sha, job.walk, job.life);
    FinishedRun(env, job.oracle, job.calls, job.mode.changed, t, job.sha, job.walk, job.life);
  }

  /** So does a relationship of a file on which a finished incremental run acts, by the rule over the files of this run. */
  lemma ChangedEdgeGoes(env: Env, t: Tables, job: Job, path: string, rel: Relationship, q: Option<string>)
    requires Inv(env, t) && IsWalk(env, HeadOf(env, job), job.walk) && RunJob(env, t, job).alive
    requires Reaches(env, job, path) && Called(env, HeadOf(env, job), path, rel)
    ensures GoesInto(RunJob(env, t, job).t, path, rel, q) <==> q == ResolvedBy(env, job, path, rel.target)
  {
    var u, w, head := RunJob(env, t, job).t, WalkedJob(env, t, job), HeadOf(env, job);
    JobOutcome(env, t, job);
    ChangedGoesInto(env, job.mode.changed, head, t, w, u, path, rel, q);
    assert IndexedWhenReached(env, job.mode.changed, head, w, path);
    forall x | IndexesName(env, job.mode, head, x, rel.target) ensures SameRow(w.t, u, x) {
      assert IndexedWhenReached(env, job.mode.changed, head, w, x);
    }
    TargetFollows(env, t, job, u, w.rows, path, rel.target);
    if GoesInto(u, path, rel, q) {
      TargetIsUnique(u, Target(w.rows, w.t.files[path].id, rel.target), rel.target, q, ResolvedBy(env, job, path, rel.target));
    }
  }

  /** And a file that it leaves alone keeps its old edges, except those into files on which it acts. */
  lemma UntouchedEdgeGoes(env: Env, t: Tables, job: Job, path: string, rel: Relationship, q: Option<string>)
    requires Inv(env, t) && IsWalk(env, HeadOf(env, job), job.walk) && job.mode.Incremental? && RunJob(env, t, job).alive
    requires !Reaches(env, job, path)
    ensures GoesInto(RunJob(env, t, job).t, path, rel, q)
            <==> GoesInto(t, path, rel, q) && (q.Some? ==> !Reaches(env, job, q.value))
  {
    JobOutcome(env, t, job);
    UntouchedGoesInto(env, job.mode.changed, HeadOf(env, job), t, WalkedJob(env, t, job), RunJob(env, t, job).t, path, rel, q);
  }
}
