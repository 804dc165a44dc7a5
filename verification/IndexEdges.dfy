/** What the stored relationship edges mean, after full and after incremental runs. */
module IndexEdges {
  import opened Wrappers
  import opened SourceChunks
  import opened IndexTables
  import opened IndexRuns
  import opened IndexSteps
  import opened IndexTheorems
  import opened Sequences
  import Embedding

  // ----- name resolution -----

  predicate Named(row: ChunkRow, scope: Option<nat>, symbol: string) {
    row.chunk.symbol == symbol && (scope.Some? ==> row.fileId == scope.value)
  }

  /** row k is the last row with that name, in one file or in the whole run. */
  ghost predicate IsLast(rows: seq<ChunkRow>, scope: Option<nat>, symbol: string, k: int) {
    0 <= k < |rows| && Named(rows[k], scope, symbol)
    && forall j :: k < j < |rows| ==> !Named(rows[j], scope, symbol)
  }

  ghost predicate IsLastId(rows: seq<ChunkRow>, scope: Option<nat>, symbol: string, id: nat) {
    exists k :: IsLast(rows, scope, symbol, k) && rows[k].id == id
  }

  ghost predicate Defined(rows: seq<ChunkRow>, scope: Option<nat>, symbol: string) {
    exists c :: c in rows && Named(c, scope, symbol)
  }

  lemma {:induction false} LastIsUnique(rows: seq<ChunkRow>, scope: Option<nat>, symbol: string, a: nat, b: nat)
    requires IsLastId(rows, scope, symbol, a) && IsLastId(rows, scope, symbol, b)
    ensures a == b
  {
    var j :| IsLast(rows, scope, symbol, j) && rows[j].id == a;
    var k :| IsLast(rows, scope, symbol, k) && rows[k].id == b;
    assert Named(rows[j], scope, symbol) && Named(rows[k], scope, symbol);
  }

  /** The dict lookups answer exactly when the name is defined, with its last definition. */
  lemma {:induction false} LookupMeaning(rows: seq<ChunkRow>, scope: Option<nat>, symbol: string)
    ensures var found := if scope.Some? then LastScoped(rows, scope.value, symbol) else LastGlobal(rows, symbol);
            (found.Some? <==> Defined(rows, scope, symbol))
            && (found.Some? ==> IsLastId(rows, scope, symbol, found.value))
  {
    if rows == [] {
    } else {
      var init, last := rows[..|rows| - 1], rows[|rows| - 1];
      assert rows == init + [last];
      LookupMeaning(init, scope, symbol);
      if Named(last, scope, symbol) {
        assert IsLast(rows, scope, symbol, |rows| - 1);
      } else if Defined(init, scope, symbol) {
        var id := if scope.Some? then LastScoped(init, scope.value, symbol).value else LastGlobal(init, symbol).value;
        var k :| IsLast(init, scope, symbol, k) && init[k].id == id;
        assert IsLast(rows, scope, symbol, k);
      }
    }
  }

  /**
   The edge of one relationship: from the file's last chunk with the caller's name, to the
   file's last chunk with the target's name, else the run's last one, else external.
   */
  ghost predicate EdgeFor(e: EdgeRow, rows: seq<ChunkRow>, fileId: nat, rel: Relationship) {
    && e.kind == rel.kind
    && IsLastId(rows, Some(fileId), PyStr(rel.fromSymbol), e.from)
    && (if Defined(rows, Some(fileId), rel.target) then
          e.to.Some? && IsLastId(rows, Some(fileId), rel.target, e.to.value)
        else if Defined(rows, None, rel.target) then
          e.to.Some? && IsLastId(rows, None, rel.target, e.to.value)
        else e.to.None?)
    && e.external == (if e.to.Some? then None else Some(rel.target))
  }

  lemma {:induction false} ResolveFileMeaning(rows: seq<ChunkRow>, fileId: nat, rels: seq<Relationship>, n: nat, e: EdgeRow)
    requires n <= |rels|
    ensures e in ResolveFile(rows, fileId, rels, n) <==> exists k :: 0 <= k < n && EdgeFor(e, rows, fileId, rels[k])
  {
    if n == 0 {
    } else {
      ResolveFileMeaning(rows, fileId, rels, n - 1, e);
      var rel := rels[n - 1];
      LookupMeaning(rows, Some(fileId), PyStr(rel.fromSymbol));
      OneEdgeMeaning(rows, fileId, rel, e);
    }
  }

  lemma OneEdgeMeaning(rows: seq<ChunkRow>, fileId: nat, rel: Relationship, e: EdgeRow)
    ensures var from, to := LastScoped(rows, fileId, PyStr(rel.fromSymbol)), Target(rows, fileId, rel.target);
            EdgeFor(e, rows, fileId, rel) <==>
            from.Some? && e == EdgeRow(from.value, to, rel.kind, if to.Some? then None else Some(rel.target))
  {
    LookupMeaning(rows, Some(fileId), PyStr(rel.fromSymbol));
    LookupMeaning(rows, Some(fileId), rel.target);
    LookupMeaning(rows, None, rel.target);
    if EdgeFor(e, rows, fileId, rel) {
      var k :| IsLast(rows, Some(fileId), PyStr(rel.fromSymbol), k) && rows[k].id == e.from;
      assert rows[k] in rows && Defined(rows, Some(fileId), PyStr(rel.fromSymbol));
      LastIsUnique(rows, Some(fileId), PyStr(rel.fromSymbol), e.from,
                   LastScoped(rows, fileId, PyStr(rel.fromSymbol)).value);
      if Defined(rows, Some(fileId), rel.target) {
        LastIsUnique(rows, Some(fileId), rel.target, e.to.value, LastScoped(rows, fileId, rel.target).value);
      } else if Defined(rows, None, rel.target) {
        LastIsUnique(rows, None, rel.target, e.to.value, LastGlobal(rows, rel.target).value);
      }
    }
  }

  ghost predicate EdgeOfSpec(e: EdgeRow, rows: seq<ChunkRow>, spec: FileSpec) {
    exists k :: 0 <= k < |spec.relationships| && EdgeFor(e, rows, spec.fileId, spec.relationships[k])
  }

  lemma SpecMeaning(rows: seq<ChunkRow>, spec: FileSpec, e: EdgeRow)
    ensures e in ResolveFile(rows, spec.fileId, spec.relationships, |spec.relationships|) <==> EdgeOfSpec(e, rows, spec)
  {
    ResolveFileMeaning(rows, spec.fileId, spec.relationships, |spec.relationships|, e);
  }

  ghost predicate SomeSpecHas(rows: seq<ChunkRow>, specs: seq<FileSpec>, n: nat, e: EdgeRow)
    requires n <= |specs|
  {
    exists i :: 0 <= i < n && EdgeOfSpec(e, rows, specs[i])
  }

  lemma NextSpecHas(rows: seq<ChunkRow>, specs: seq<FileSpec>, n: nat, e: EdgeRow)
    requires n < |specs|
    ensures SomeSpecHas(rows, specs, n + 1, e) <==> SomeSpecHas(rows, specs, n, e) || EdgeOfSpec(e, rows, specs[n])
  {}

  lemma {:induction false} ResolveMeaning(rows: seq<ChunkRow>, specs: seq<FileSpec>, n: nat, e: EdgeRow)
    requires n <= |specs|
    ensures e in Resolve(rows, specs, n) <==> SomeSpecHas(rows, specs, n, e)
  {
    if n == 0 {
    } else {
      ResolveMeaning(rows, specs, n - 1, e);
      SpecMeaning(rows, specs[n - 1], e);
      NextSpecHas(rows, specs, n - 1, e);
    }
  }

  // ----- where the relationships come from -----

  /** The specs are exactly the relationships extracted from the files that the walk indexed. */
  ghost predicate SpecsFrom(env: Env, mode: Mode, sha: string, seen: seq<string>, r: Run) {
    && (forall s :: s in r.specs ==> exists p :: SpecOf(env, mode, sha, seen, r, p, s))
    && (forall p :: p in seen && ActionFor(env, mode, env.treeOf(sha), p).Index? ==>
          p in r.t.files && exists s :: s in r.specs && SpecOf(env, mode, sha, seen, r, p, s))
  }

  ghost predicate SpecOf(env: Env, mode: Mode, sha: string, seen: seq<string>, r: Run, path: string, s: FileSpec) {
    var a := ActionFor(env, mode, env.treeOf(sha), path);
    path in seen && a.Index? && path in r.t.files && s.fileId == r.t.files[path].id
    && s.relationships == env.extract(a.content, a.language, env.chunkFile(a.content, a.language))
  }

  lemma SpecsStep(env: Env, mode: Mode, sha: string, base: nat, seen: seq<string>, path: string, r: Run,
                  seen': seq<string>, after: Run)
    requires RunInv(env, base, seen, r) && path !in seen && !env.inGitRoot(path)
    requires SpecsFrom(env, mode, sha, seen, r)
    requires after == Visit(env, mode, sha, path, r) && after.alive && seen' == seen + [path]
    ensures SpecsFrom(env, mode, sha, seen', after)
  {
    forall p, s | SpecOf(env, mode, sha, seen, r, p, s) ensures SpecOf(env, mode, sha, seen', after, p, s) {
      VisitElsewhere(env, mode, sha, p, path, r);
    }
    if ActionFor(env, mode, env.treeOf(sha), path).Index? {
      SpecIsAdded(env, mode, sha, base, seen, path, r, seen', after);
    }
  }

  lemma SpecIsAdded(env: Env, mode: Mode, sha: string, base: nat, seen: seq<string>, path: string, r: Run,
                    seen': seq<string>, after: Run)
    requires RunInv(env, base, seen, r) && !env.inGitRoot(path) && ActionFor(env, mode, env.treeOf(sha), path).Index?
    requires after == Visit(env, mode, sha, path, r) && after.alive && seen' == seen + [path]
    ensures after.specs != [] && after.specs == r.specs + [after.specs[|after.specs| - 1]]
    ensures SpecOf(env, mode, sha, seen', after, path, after.specs[|after.specs| - 1])
  {
    UpsertStep(env, mode, r.t, path, ActionFor(env, mode, env.treeOf(sha), path), sha);
  }

  lemma {:induction false} SpecsAfterWalk(env: Env, mode: Mode, sha: string, base: nat, walk: seq<string>, n: nat, r: Run)
    requires n <= |walk| && IsWalk(env, env.treeOf(sha), walk) && RunInv(env, base, [], r) && r.specs == []
    requires VisitAll(env, mode, sha, walk, n, r).alive
    ensures SpecsFrom(env, mode, sha, walk[..n], VisitAll(env, mode, sha, walk, n, r))
  {
    if n == 0 {
    } else {
      SpecsAfterWalk(env, mode, sha, base, walk, n - 1, r);
      SpecsAfterNext(env, mode, sha, base, walk, n, r);
    }
  }

  lemma SpecsAfterNext(env: Env, mode: Mode, sha: string, base: nat, walk: seq<string>, n: nat, r: Run)
    requires 0 < n <= |walk| && IsWalk(env, env.treeOf(sha), walk) && RunInv(env, base, [], r)
    requires SpecsFrom(env, mode, sha, walk[..n - 1], VisitAll(env, mode, sha, walk, n - 1, r))
    requires VisitAll(env, mode, sha, walk, n, r).alive
    ensures SpecsFrom(env, mode, sha, walk[..n], VisitAll(env, mode, sha, walk, n, r))
  {
    WalkKeepsRunInv(env, mode, sha, base, walk, n - 1, r);
    TakeNext(walk, n - 1);
    SpecsStep(env, mode, sha, base, walk[..n - 1], walk[n - 1], VisitAll(env, mode, sha, walk, n - 1, r),
              walk[..n], VisitAll(env, mode, sha, walk, n, r));
  }

  // ----- a full run replaces everything -----

  lemma AliveEverywhere(env: Env, mode: Mode, t: Tables, calls: nat, sha: string, walk: seq<string>, life: nat)
    requires Inv(env, t) && IsWalk(env, env.treeOf(sha), walk)
    requires Walked(env, mode, t, calls, sha, walk, life).alive
    ensures var p0, w := Prepare(mode, env.treeOf(sha), t, calls, life), Walked(env, mode, t, calls, sha, walk, life);
            p0.alive && RunInv(env, t.nextId, [], p0) && p0.specs == [] && RunInv(env, t.nextId, walk, w)
            && forall p :: PathState(env, mode, sha, p in walk, p0.t, w, p)
  {
    var p0, w := Prepare(mode, env.treeOf(sha), t, calls, life), Walked(env, mode, t, calls, sha, walk, life);
    forall p ensures p0.alive && PathState(env, mode, sha, p in walk, p0.t, w, p) {
      AliveWalk(env, mode, t, calls, sha, walk, life, p);
    }
    PrepareStep(env, mode, env.treeOf(sha), t, calls, life);
    WalkedStep(env, mode, t, calls, sha, walk, life);
    assert p0.alive by { AliveWalk(env, mode, t, calls, sha, walk, life, ""); }
  }

  /** All chunks that survive the walk of a full run belong to files that the sweep removes. */
  lemma OldChunksAreStale(env: Env, sha: string, base: nat, walk: seq<string>, before: Tables, w: Run)
    requires RunInv(env, base, walk, w) && IsWalk(env, env.treeOf(sha), walk)
    requires forall p :: PathState(env, Full, sha, p in walk, before, w, p)
    ensures var gone := FileIds(w.t, StalePaths(w.t, sha));
            (forall c :: c in w.t.chunks ==> c.fileId in gone) && (forall c :: c in w.rows ==> c.fileId !in gone)
  {
    var gone := FileIds(w.t, StalePaths(w.t, sha));
    forall c | c in w.t.chunks ensures c.fileId in gone {
      assert HasFile(w.t, c.fileId);
      var p :| p in w.t.files && w.t.files[p].id == c.fileId;
      assert PathState(env, Full, sha, p in walk, before, w, p);
      assert Eligible(env, env.treeOf(w.t.files[p].sha), p);
      NoChunksOf(w.t.chunks, c.fileId);
    }
    forall c | c in w.rows ensures c.fileId !in gone {
      var p :| p in walk && p in w.t.files && w.t.files[p].id == c.fileId;
      assert PathState(env, Full, sha, p in walk, before, w, p);
      NoChunksOf(w.rows, c.fileId);
    }
  }

  lemma SweepKeepsOnlyRows(env: Env, base: nat, seen: seq<string>, r: Run, gone: set<nat>)
    requires RunInv(env, base, seen, r)
    requires forall c :: c in r.t.chunks ==> c.fileId in gone
    requires forall c :: c in r.rows ==> c.fileId !in gone
    ensures DeleteChunks(Fill(r.t, r.rows, r.specs), gone).chunks == r.rows
    ensures DeleteChunks(Fill(r.t, r.rows, r.specs), gone).edges == Resolve(r.rows, r.specs, |r.specs|)
  {
    var filled, added := Fill(r.t, r.rows, r.specs), Resolve(r.rows, r.specs, |r.specs|);
    var ids := RemovedIds(filled.chunks, gone);
    KeepChunksAppend(r.t.chunks, r.rows, gone);
    KeepAllOrNone(r.t.chunks, gone);
    KeepAllOrNone(r.rows, gone);
    assert KeepChunks(filled.chunks, gone) == [] + r.rows;
    ResolveEdgesOk(r.rows, r.specs, |r.specs|);
    forall e | e in r.t.edges ensures Touches(e, ids) { assert EdgeOk(e, Ids(r.t.chunks)); }
    forall e | e in added ensures !Touches(e, ids) { assert EdgeOk(e, Ids(r.rows)); }
    KeepEdgesAppend(r.t.edges, added, ids);
    KeepEdgesAllOrNone(r.t.edges, ids);
    KeepEdgesAllOrNone(added, ids);
  }

  /**
   Nothing of the old index survives a finished full run: its chunks are the rows of this
   run in walk order, its edges are this run's, and the counters agree with the tables.
   */
  lemma FullRunReplacesEverything(env: Env, oracle: Embedding.Oracle, calls: nat, t: Tables, sha: string,
                                  walk: seq<string>, life: nat)
    requires Inv(env, t) && IsWalk(env, env.treeOf(sha), walk)
    requires IndexRun(env, oracle, calls, Full, t, sha, walk, life).alive
    ensures var w := Walked(env, Full, t, calls, sha, walk, life);
            var u := IndexRun(env, oracle, calls, Full, t, sha, walk, life).t;
            && w.alive && u.chunks == w.rows && u.edges == Resolve(w.rows, w.specs, |w.specs|)
            && u.repo.chunksIndexed == |u.chunks|
            && u.files.Keys == w.t.files.Keys - StalePaths(w.t, sha)
            && forall p :: p in u.files ==> u.files[p] == w.t.files[p]
  {
    var w := Walked(env, Full, t, calls, sha, walk, life);
    WalkedStep(env, Full, t, calls, sha, walk, life);
    ReadyStep(env, oracle, t.nextId, walk, w);
    AliveEverywhere(env, Full, t, calls, sha, walk, life);
    OldChunksAreStale(env, sha, t.nextId, walk, Prepare(Full, env.treeOf(sha), t, calls, life).t, w);
    var ready := Ready(env, oracle, w);
    var stale := StalePaths(w.t, sha);
    assert StalePaths(Fill(ready.t, ready.rows, ready.specs), sha) == stale;
    assert FileIds(Fill(ready.t, ready.rows, ready.specs), stale) == FileIds(w.t, stale);
    SweepKeepsOnlyRows(env, t.nextId, walk, ready, FileIds(w.t, stale));
  }

  /**
   After a finished full run an edge is stored if and only if it is the edge of a
   relationship extracted from some eligible file, resolved over all chunks of the index.
   */
  lemma FullRunEdges(env: Env, oracle: Embedding.Oracle, calls: nat, t: Tables, sha: string, walk: seq<string>,
                     life: nat, e: EdgeRow)
    requires Inv(env, t) && IsWalk(env, env.treeOf(sha), walk)
    requires IndexRun(env, oracle, calls, Full, t, sha, walk, life).alive
    ensures var u := IndexRun(env, oracle, calls, Full, t, sha, walk, life).t;
            e in u.edges <==> exists p :: EdgeOfFile(env, env.treeOf(sha), u, p, e)
  {
    var u := IndexRun(env, oracle, calls, Full, t, sha, walk, life).t;
    var w := Walked(env, Full, t, calls, sha, walk, life);
    var p0 := Prepare(Full, env.treeOf(sha), t, calls, life);
    FullRunReplacesEverything(env, oracle, calls, t, sha, walk, life);
    AliveEverywhere(env, Full, t, calls, sha, walk, life);
    SpecsAfterWalk(env, Full, sha, t.nextId, walk, |walk|, p0);
    assert walk[..|walk|] == walk;
    EdgesFromSpecs(env, sha, walk, p0.t, w, u, e);
  }

  lemma EdgesFromSpecs(env: Env, sha: string, walk: seq<string>, before: Tables, w: Run, u: Tables, e: EdgeRow)
    requires IsWalk(env, env.treeOf(sha), walk) && SpecsFrom(env, Full, sha, walk, w)
    requires forall p :: PathState(env, Full, sha, p in walk, before, w, p)
    requires u.chunks == w.rows && u.edges == Resolve(w.rows, w.specs, |w.specs|)
    requires u.files.Keys == w.t.files.Keys - StalePaths(w.t, sha)
    requires forall p :: p in u.files ==> u.files[p] == w.t.files[p]
    ensures e in u.edges <==> exists p :: EdgeOfFile(env, env.treeOf(sha), u, p, e)
  {
    ResolveMeaning(w.rows, w.specs, |w.specs|, e);
    forall p ensures KeepsEligible(env, sha, w, u, p) {
      assert PathState(env, Full, sha, p in walk, before, w, p);
    }
    if e in u.edges {
      var i :| 0 <= i < |w.specs| && EdgeOfSpec(e, w.rows, w.specs[i]);
      FileOfSpec(env, sha, walk, w, u, e, w.specs[i]);
    }
    if p :| EdgeOfFile(env, env.treeOf(sha), u, p, e) {
      SpecOfEdge(env, sha, walk, w, u, p, e);
    }
  }

  predicate KeepsEligible(env: Env, sha: string, w: Run, u: Tables, path: string) {
    Eligible(env, env.treeOf(sha), path) ==> path in u.files && path in w.t.files && u.files[path] == w.t.files[path]
  }

  lemma FileOfSpec(env: Env, sha: string, walk: seq<string>, w: Run, u: Tables, e: EdgeRow, s: FileSpec)
    requires IsWalk(env, env.treeOf(sha), walk) && SpecsFrom(env, Full, sha, walk, w) && u.chunks == w.rows
    requires forall p :: KeepsEligible(env, sha, w, u, p)
    requires s in w.specs && EdgeOfSpec(e, w.rows, s)
    ensures exists p :: EdgeOfFile(env, env.treeOf(sha), u, p, e)
  {
    var p :| SpecOf(env, Full, sha, walk, w, p, s);
    assert KeepsEligible(env, sha, w, u, p);
    SpecIsFiles(env, sha, walk, w, u, p, s);
    assert EdgeOfFile(env, env.treeOf(sha), u, p, e);
  }

  lemma SpecOfEdge(env: Env, sha: string, walk: seq<string>, w: Run, u: Tables, p: string, e: EdgeRow)
    requires IsWalk(env, env.treeOf(sha), walk) && SpecsFrom(env, Full, sha, walk, w) && u.chunks == w.rows
    requires KeepsEligible(env, sha, w, u, p) && EdgeOfFile(env, env.treeOf(sha), u, p, e)
    ensures exists i :: 0 <= i < |w.specs| && EdgeOfSpec(e, w.rows, w.specs[i])
  {
    var s :| s in w.specs && SpecOf(env, Full, sha, walk, w, p, s);
    SpecIsFiles(env, sha, walk, w, u, p, s);
    assert EdgeOfSpec(e, w.rows, s);
  }

  lemma SpecIsFiles(env: Env, sha: string, walk: seq<string>, w: Run, u: Tables, path: string, s: FileSpec)
    requires IsWalk(env, env.treeOf(sha), walk) && SpecOf(env, Full, sha, walk, w, path, s)
    requires Eligible(env, env.treeOf(sha), path) ==> path in u.files && u.files[path] == w.t.files[path]
    ensures Eligible(env, env.treeOf(sha), path) && path in u.files
    ensures s == SpecOfFile(env, env.treeOf(sha), u, path)
  {}

  function SpecOfFile(env: Env, tree: Tree, u: Tables, path: string): FileSpec
    requires Eligible(env, tree, path) && path in u.files
  {
    var content, language := tree[path].content, env.languageOf(path).value;
    FileSpec(u.files[path].id, env.extract(content, language, env.chunkFile(content, language)))
  }

  ghost predicate EdgeOfFile(env: Env, tree: Tree, u: Tables, path: string, e: EdgeRow) {
    Eligible(env, tree, path) && path in u.files && EdgeOfSpec(e, u.chunks, SpecOfFile(env, tree, u, path))
  }

  // ----- an incremental run keeps only part of the old edges -----

  /** A delete removes an edge exactly when it would dangle. */
  lemma DeleteChunksEdges(t: Tables, gone: set<nat>, e: EdgeRow)
    requires Valid(t)
    ensures e in DeleteChunks(t, gone).edges <==> e in t.edges && EdgeOk(e, Ids(DeleteChunks(t, gone).chunks))
  {
    KeepEdgesMembers(t.edges, RemovedIds(t.chunks, gone));
    KeepChunksMembers(t.chunks, gone);
    if e in t.edges { assert EdgeOk(e, Ids(t.chunks)); }
  }

  /** The old rows that remain, and the old edges between them. */
  ghost predicate Remains(t: Tables, u: Tables) {
    ChunksWithin(t, u) && forall e :: e in u.edges <==> e in t.edges && EdgeOk(e, Ids(u.chunks))
  }

  lemma RemainsTransitive(t: Tables, u: Tables, v: Tables)
    requires Remains(t, u) && Remains(u, v)
    ensures Remains(t, v)
  {
    assert Ids(v.chunks) <= Ids(u.chunks);
  }

  lemma DeleteRemains(t: Tables, gone: set<nat>)
    requires Valid(t)
    ensures Remains(t, DeleteChunks(t, gone))
  {
    KeepChunksMembers(t.chunks, gone);
    forall e
      ensures e in DeleteChunks(t, gone).edges <==> e in t.edges && EdgeOk(e, Ids(DeleteChunks(t, gone).chunks))
    {
      DeleteChunksEdges(t, gone, e);
    }
  }

  lemma VisitRemains(env: Env, mode: Mode, sha: string, path: string, r: Run)
    requires Valid(r.t)
    ensures Remains(r.t, Visit(env, mode, sha, path, r).t)
  {
    var a := ActionFor(env, mode, env.treeOf(sha), path);
    assert Remains(r.t, r.t);
    if a.Purge? {
      DeleteRemains(r.t, FileIds(r.t, {path}));
    } else if path in r.t.files {
      DeleteRemains(r.t, {r.t.files[path].id});
    }
  }

  lemma {:induction false} WalkRemains(env: Env, mode: Mode, sha: string, base: nat, walk: seq<string>, n: nat, r: Run)
    requires n <= |walk| && IsWalk(env, env.treeOf(sha), walk) && RunInv(env, base, [], r)
    ensures Remains(r.t, VisitAll(env, mode, sha, walk, n, r).t)
  {
    if n == 0 {
      assert Remains(r.t, r.t);
    } else {
      var mid := VisitAll(env, mode, sha, walk, n - 1, r);
      WalkRemains(env, mode, sha, base, walk, n - 1, r);
      WalkKeepsRunInv(env, mode, sha, base, walk, n - 1, r);
      VisitRemains(env, mode, sha, walk[n - 1], mid);
      RemainsTransitive(r.t, mid.t, Visit(env, mode, sha, walk[n - 1], mid).t);
    }
  }

  /** A file keeps its id for as long as its row lives, and a new row has a new id. */
  ghost predicate IdsStable(t: Tables, u: Tables) {
    t.nextId <= u.nextId
    && forall p :: p in u.files ==> t.nextId <= u.files[p].id || (p in t.files && u.files[p].id == t.files[p].id)
  }

  lemma {:induction false} WalkIdsStable(env: Env, mode: Mode, sha: string, walk: seq<string>, n: nat, t: Tables, r: Run)
    requires n <= |walk| && IdsStable(t, r.t)
    ensures IdsStable(t, VisitAll(env, mode, sha, walk, n, r).t)
  {
    if n == 0 {
    } else {
      WalkIdsStable(env, mode, sha, walk, n - 1, t, r);
    }
  }

  lemma VisitKeepsChunk(env: Env, mode: Mode, sha: string, path: string, other: string, r: Run, c: ChunkRow)
    requires Valid(r.t) && path != other && path in r.t.files && r.t.files[path].id == c.fileId && c in r.t.chunks
    ensures c in Visit(env, mode, sha, other, r).t.chunks
  {
    KeepChunksMembers(r.t.chunks, FileIds(r.t, {other}));
    if other in r.t.files { KeepChunksMembers(r.t.chunks, {r.t.files[other].id}); }
  }

  lemma NextKeepsChunk(env: Env, mode: Mode, sha: string, base: nat, walk: seq<string>, n: nat, r: Run, path: string, c: ChunkRow)
    requires n < |walk| && IsWalk(env, env.treeOf(sha), walk) && RunInv(env, base, [], r)
    requires path in walk ==> ActionFor(env, mode, env.treeOf(sha), path).Skip?
    requires path in r.t.files && r.t.files[path].id == c.fileId && c in VisitAll(env, mode, sha, walk, n, r).t.chunks
    ensures c in VisitAll(env, mode, sha, walk, n + 1, r).t.chunks
  {
    UntouchedByWalk(env, mode, sha, base, walk, n, r, path);
    WalkKeepsRunInv(env, mode, sha, base, walk, n, r);
    if path != walk[n] {
      VisitKeepsChunk(env, mode, sha, path, walk[n], VisitAll(env, mode, sha, walk, n, r), c);
    }
  }

  lemma {:induction false} ChunkStays(env: Env, mode: Mode, sha: string, base: nat, walk: seq<string>, n: nat, r: Run,
                                      path: string, c: ChunkRow)
    requires n <= |walk| && IsWalk(env, env.treeOf(sha), walk) && RunInv(env, base, [], r)
    requires path in walk ==> ActionFor(env, mode, env.treeOf(sha), path).Skip?
    requires path in r.t.files && r.t.files[path].id == c.fileId && c in r.t.chunks
    ensures c in VisitAll(env, mode, sha, walk, n, r).t.chunks
  {
    for k := 0 to n
      invariant c in VisitAll(env, mode, sha, walk, k, r).t.chunks
    {
      NextKeepsChunk(env, mode, sha, base, walk, k, r, path, c);
    }
  }

  /** After the walk of an incremental run a chunk is left if and only if the run does not act on its file. */
  lemma ChunkLeftIff(env: Env, calls: nat, changed: set<string>, t: Tables, sha: string, walk: seq<string>, life: nat,
                     path: string, c: ChunkRow)
    requires Inv(env, t) && IsWalk(env, env.treeOf(sha), walk)
    requires Walked(env, Incremental(changed), t, calls, sha, walk, life).alive
    requires c in t.chunks && path in t.files && t.files[path].id == c.fileId
    ensures c in Walked(env, Incremental(changed), t, calls, sha, walk, life).t.chunks
            <==> !Reached(env, changed, env.treeOf(sha), path)
  {
    var tree, mode := env.treeOf(sha), Incremental(changed);
    if Reached(env, changed, tree, path) {
      AliveWalk(env, mode, t, calls, sha, walk, life, path);
      WalkedStep(env, mode, t, calls, sha, walk, life);
      WalkedIdsStable(env, mode, t, calls, sha, walk, life);
      PreparedAt(env, mode, tree, t, calls, life, path);
      ReachedChunkGoes(env, changed, sha, walk, t, Prepare(mode, tree, t, calls, life).t,
                       Walked(env, mode, t, calls, sha, walk, life), path, c);
    } else {
      UnreachedChunkStays(env, calls, changed, t, sha, walk, life, path, c);
    }
  }

  lemma PreparedAt(env: Env, mode: Mode, tree: Tree, t: Tables, calls: nat, life: nat, path: string)
    requires Inv(env, t)
    ensures var p0 := Prepare(mode, tree, t, calls, life);
            p0.alive && path in Gone(mode, tree) ==> path !in p0.t.files
  {
    PrepareStep(env, mode, tree, t, calls, life);
  }

  lemma WalkedIdsStable(env: Env, mode: Mode, t: Tables, calls: nat, sha: string, walk: seq<string>, life: nat)
    ensures IdsStable(t, Walked(env, mode, t, calls, sha, walk, life).t)
  {
    var p0 := Prepare(mode, env.treeOf(sha), t, calls, life);
    assert IdsStable(t, p0.t);
    WalkIdsStable(env, mode, sha, walk, |walk|, t, p0);
  }

  lemma UnreachedChunkStays(env: Env, calls: nat, changed: set<string>, t: Tables, sha: string, walk: seq<string>,
                            life: nat, path: string, c: ChunkRow)
    requires Inv(env, t) && IsWalk(env, env.treeOf(sha), walk)
    requires c in t.chunks && path in t.files && t.files[path].id == c.fileId
    requires !Reached(env, changed, env.treeOf(sha), path)
    ensures c in Walked(env, Incremental(changed), t, calls, sha, walk, life).t.chunks
  {
    var tree, mode := env.treeOf(sha), Incremental(changed);
    PrepareStep(env, mode, tree, t, calls, life);
    PrepareKeepsChunk(mode, tree, t, calls, life, path, c);
    ChunkStays(env, mode, sha, t.nextId, walk, |walk|, Prepare(mode, tree, t, calls, life), path, c);
  }

  lemma ReachedChunkGoes(env: Env, changed: set<string>, sha: string, walk: seq<string>, t: Tables, p0: Tables, w: Run,
                         path: string, c: ChunkRow)
    requires Inv(env, t) && Inv(env, w.t) && IdsStable(t, w.t) && IsWalk(env, env.treeOf(sha), walk)
    requires path in t.files && t.files[path].id == c.fileId && t.files[path].id < t.nextId
    requires PathState(env, Incremental(changed), sha, path in walk, p0, w, path)
    requires path in Gone(Incremental(changed), env.treeOf(sha)) ==> path !in p0.files
    requires Reached(env, changed, env.treeOf(sha), path)
    ensures c !in w.t.chunks
  {
    if c in w.t.chunks { ReachedFileIsEmpty(env, t, w, path, c); }
  }

  lemma ReachedFileIsEmpty(env: Env, t: Tables, w: Run, path: string, c: ChunkRow)
    requires Inv(env, t) && Inv(env, w.t) && IdsStable(t, w.t) && c in w.t.chunks
    requires path in t.files && t.files[path].id == c.fileId
    ensures path in w.t.files && ChunksOf(w.t.chunks, w.t.files[path].id) != []
  {
    assert HasFile(w.t, c.fileId);
    NoChunksOf(w.t.chunks, c.fileId);
  }

  lemma PrepareKeepsChunk(mode: Mode, tree: Tree, t: Tables, calls: nat, life: nat, path: string, c: ChunkRow)
    requires Valid(t) && path in t.files && t.files[path].id == c.fileId && c in t.chunks && path !in Gone(mode, tree)
    ensures c in Prepare(mode, tree, t, calls, life).t.chunks
  {
    KeepChunksMembers(t.chunks, FileIds(t, Gone(mode, tree)));
  }

  /** The file of a chunk id is left alone by the run. */
  ghost predicate FileLeftAlone(env: Env, changed: set<string>, tree: Tree, t: Tables, id: nat) {
    exists c, p :: c in t.chunks && c.id == id && p in t.files && t.files[p].id == c.fileId
                   && !Reached(env, changed, tree, p)
  }

  lemma IdLeftIff(env: Env, calls: nat, changed: set<string>, t: Tables, sha: string, walk: seq<string>, life: nat, id: nat)
    requires Inv(env, t) && IsWalk(env, env.treeOf(sha), walk) && id in Ids(t.chunks)
    requires Walked(env, Incremental(changed), t, calls, sha, walk, life).alive
    requires ChunksWithin(t, Walked(env, Incremental(changed), t, calls, sha, walk, life).t)
    ensures id in Ids(Walked(env, Incremental(changed), t, calls, sha, walk, life).t.chunks)
            <==> FileLeftAlone(env, changed, env.treeOf(sha), t, id)
  {
    var c :| c in t.chunks && c.id == id;
    assert HasFile(t, c.fileId);
    var p :| p in t.files && t.files[p].id == c.fileId;
    ChunkLeftIff(env, calls, changed, t, sha, walk, life, p, c);
  }

  lemma PrepareRemains(mode: Mode, tree: Tree, t: Tables, calls: nat, life: nat)
    requires Valid(t)
    ensures Remains(t, Prepare(mode, tree, t, calls, life).t)
  {
    DeleteRemains(t, FileIds(t, Gone(mode, tree)));
    assert Remains(t, t);
  }

  lemma EdgesLeftByWalk(env: Env, calls: nat, mode: Mode, t: Tables, sha: string, walk: seq<string>, life: nat)
    requires Inv(env, t) && IsWalk(env, env.treeOf(sha), walk)
    ensures Remains(t, Walked(env, mode, t, calls, sha, walk, life).t)
  {
    var p0 := Prepare(mode, env.treeOf(sha), t, calls, life);
    PrepareStep(env, mode, env.treeOf(sha), t, calls, life);
    PrepareRemains(mode, env.treeOf(sha), t, calls, life);
    WalkRemains(env, mode, sha, t.nextId, walk, |walk|, p0);
    RemainsTransitive(t, p0.t, Walked(env, mode, t, calls, sha, walk, life).t);
  }

  lemma OldEdgeIsNotNew(env: Env, base: nat, seen: seq<string>, w: Run, t: Tables, e: EdgeRow)
    requires RunInv(env, base, seen, w) && Valid(t) && t.nextId == base && e in t.edges
    ensures e !in Resolve(w.rows, w.specs, |w.specs|)
  {
    ResolveEdgesOk(w.rows, w.specs, |w.specs|);
    assert EdgeOk(e, Ids(t.chunks));
    forall x | x in Resolve(w.rows, w.specs, |w.specs|) ensures x != e { assert EdgeOk(x, Ids(w.rows)); }
  }

  /**
   An old edge survives a finished incremental run if and only if the run acts on neither
   end's file.
   */
  lemma OldEdgeSurvivesIff(env: Env, oracle: Embedding.Oracle, calls: nat, changed: set<string>, t: Tables, sha: string,
                           walk: seq<string>, life: nat, e: EdgeRow)
    requires Inv(env, t) && IsWalk(env, env.treeOf(sha), walk) && e in t.edges
    requires IndexRun(env, oracle, calls, Incremental(changed), t, sha, walk, life).alive
    ensures e in IndexRun(env, oracle, calls, Incremental(changed), t, sha, walk, life).t.edges
            <==> FileLeftAlone(env, changed, env.treeOf(sha), t, e.from)
                 && (e.to.Some? ==> FileLeftAlone(env, changed, env.treeOf(sha), t, e.to.value))
  {
    var mode := Incremental(changed);
    var w := Walked(env, mode, t, calls, sha, walk, life);
    WalkedStep(env, mode, t, calls, sha, walk, life);
    ReadyStep(env, oracle, t.nextId, walk, w);
    EdgesLeftByWalk(env, calls, mode, t, sha, walk, life);
    OldEdgeIsNotNew(env, t.nextId, walk, w, t, e);
    assert EdgeOk(e, Ids(t.chunks));
    IdLeftIff(env, calls, changed, t, sha, walk, life, e.from);
    if e.to.Some? { IdLeftIff(env, calls, changed, t, sha, walk, life, e.to.value); }
  }

  /** The edge belongs to a relationship of a file that the run indexes, resolved over the rows of this run only. */
  ghost predicate NewEdge(env: Env, changed: set<string>, tree: Tree, w: Run, path: string, e: EdgeRow) {
    ActionFor(env, Incremental(changed), tree, path).Index? && !env.inGitRoot(path) && path in w.t.files
    && EdgeOfSpec(e, w.rows, SpecOfFile(env, tree, w.t, path))
  }

  lemma NewEdgesFromSpecs(env: Env, changed: set<string>, sha: string, walk: seq<string>, w: Run, e: EdgeRow)
    requires IsWalk(env, env.treeOf(sha), walk) && SpecsFrom(env, Incremental(changed), sha, walk, w)
    ensures e in Resolve(w.rows, w.specs, |w.specs|) <==> exists p :: NewEdge(env, changed, env.treeOf(sha), w, p, e)
  {
    var mode, tree := Incremental(changed), env.treeOf(sha);
    ResolveMeaning(w.rows, w.specs, |w.specs|, e);
    if e in Resolve(w.rows, w.specs, |w.specs|) {
      var i :| 0 <= i < |w.specs| && EdgeOfSpec(e, w.rows, w.specs[i]);
      assert w.specs[i] in w.specs;
      var p :| SpecOf(env, mode, sha, walk, w, p, w.specs[i]);
      assert w.specs[i] == SpecOfFile(env, tree, w.t, p);
      assert NewEdge(env, changed, tree, w, p, e);
    }
    if p :| NewEdge(env, changed, tree, w, p, e) {
      var s :| s in w.specs && SpecOf(env, mode, sha, walk, w, p, s);
      assert s == SpecOfFile(env, tree, w.t, p);
      assert EdgeOfSpec(e, w.rows, s);
    }
  }

  /**
   All edges after a finished incremental run: the old ones between files that it leaves
   alone, and those of the files that it indexes, which can only point into these files.
   */
  lemma IncrementalRunEdges(env: Env, oracle: Embedding.Oracle, calls: nat, changed: set<string>, t: Tables, sha: string,
                            walk: seq<string>, life: nat, e: EdgeRow)
    requires Inv(env, t) && IsWalk(env, env.treeOf(sha), walk)
    requires IndexRun(env, oracle, calls, Incremental(changed), t, sha, walk, life).alive
    ensures var w := Walked(env, Incremental(changed), t, calls, sha, walk, life);
            e in IndexRun(env, oracle, calls, Incremental(changed), t, sha, walk, life).t.edges
            <==> (e in t.edges && FileLeftAlone(env, changed, env.treeOf(sha), t, e.from)
                  && (e.to.Some? ==> FileLeftAlone(env, changed, env.treeOf(sha), t, e.to.value)))
                 || exists p :: NewEdge(env, changed, env.treeOf(sha), w, p, e)
  {
    var mode := Incremental(changed);
    var w := Walked(env, mode, t, calls, sha, walk, life);
    AliveEverywhere(env, mode, t, calls, sha, walk, life);
    SpecsAfterWalk(env, mode, sha, t.nextId, walk, |walk|, Prepare(mode, env.treeOf(sha), t, calls, life));
    assert walk[..|walk|] == walk;
    NewEdgesFromSpecs(env, changed, sha, walk, w, e);
    ReadyStep(env, oracle, t.nextId, walk, w);
    if e in t.edges {
      OldEdgeSurvivesIff(env, oracle, calls, changed, t, sha, walk, life, e);
      OldEdgeIsNotNew(env, t.nextId, walk, w, t, e);
    } else {
      EdgesLeftByWalk(env, calls, mode, t, sha, walk, life);
    }
  }
}
