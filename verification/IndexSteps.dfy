/** What one visited file, and the whole walk, do to the tables: lemmas for IndexTheorems. */
module IndexSteps {
  import opened Wrappers
  import opened SourceChunks
  import opened IndexTables
  import opened IndexRuns
  import opened Sequences
  import Embedding

  /** The tables hold the same row and the same chunks for a path. */
  ghost predicate SameAt(t: Tables, u: Tables, path: string) {
    (path in t.files <==> path in u.files)
    && (path in t.files ==> t.files[path] == u.files[path]
                            && ChunksOf(t.chunks, t.files[path].id) == ChunksOf(u.chunks, t.files[path].id))
  }

  ghost predicate ChunksWithin(t: Tables, u: Tables) {
    forall c :: c in u.chunks ==> c in t.chunks
  }

  ghost predicate UpsertEffect(env: Env, t: Tables, u: Tables, path: string, a: Action, sha: string)
    requires a.Index?
  {
    && Inv(env, u) && t.nextId <= u.nextId && ChunksWithin(t, u)
    && u.embeddings == t.embeddings && u.repo == t.repo
    && path in u.files && u.files[path].sha == sha
    && u.files[path].contentHash == env.hash(a.content) && u.files[path].size == a.size
    && ChunksOf(u.chunks, u.files[path].id) == []
    && (forall q :: q != path ==> SameAt(t, u, q))
  }

  /** Writing the row of an eligible file keeps the invariant: an update keeps the id, an insert takes a new one. */
  lemma WriteRowKeepsInv(env: Env, t: Tables, path: string, row: FileRow, nextId: nat)
    requires Inv(env, t) && t.nextId <= nextId && row.id < nextId
    requires if path in t.files then row.id == t.files[path].id else row.id == t.nextId
    requires Eligible(env, env.treeOf(row.sha), path) && env.languageOf(path) == Some(row.language)
    ensures Inv(env, t.(files := t.files[path := row], nextId := nextId))
  {
    WriteRowKeepsValid(t, path, row, nextId);
  }

  lemma WriteRowKeepsValid(t: Tables, path: string, row: FileRow, nextId: nat)
    requires Valid(t) && t.nextId <= nextId && row.id < nextId
    requires if path in t.files then row.id == t.files[path].id else row.id == t.nextId
    ensures Valid(t.(files := t.files[path := row], nextId := nextId))
  {
    var u := t.(files := t.files[path := row], nextId := nextId);
    forall c | c in t.chunks ensures HasFile(u, c.fileId) { FileStays(t, path, row, nextId, c.fileId); }
  }

  lemma FileStays(t: Tables, path: string, row: FileRow, nextId: nat, fileId: nat)
    requires HasFile(t, fileId) && (path in t.files ==> row.id == t.files[path].id)
    ensures HasFile(t.(files := t.files[path := row], nextId := nextId), fileId)
  {
    var u := t.(files := t.files[path := row], nextId := nextId);
    var p :| p in t.files && t.files[p].id == fileId;
    assert p in u.files && u.files[p].id == fileId;
  }

  lemma UpdateStep(env: Env, mode: Mode, t: Tables, path: string, a: Action, sha: string)
    requires Inv(env, t) && Eligible(env, env.treeOf(sha), path)
    requires a.Index? && a == ActionFor(env, mode, env.treeOf(sha), path)
    requires path in t.files
    ensures UpsertEffect(env, t, UpsertFile(env, mode, t, path, a, sha), path, a, sha)
  {
    var u := UpsertFile(env, mode, t, path, a, sha);
    var gone := {t.files[path].id};
    DeleteChunksKeepsReferences(t, gone);
    KeepChunksMembers(t.chunks, gone);
    KeepChunksOfFile(t.chunks, gone, t.files[path].id);
    forall q | q != path ensures SameAt(t, u, q) {
      if q in t.files { KeepChunksOfFile(t.chunks, gone, t.files[q].id); }
    }
    WriteRowKeepsInv(env, DeleteChunks(t, gone), path, u.files[path], t.nextId);
  }

  lemma InsertStep(env: Env, mode: Mode, t: Tables, path: string, a: Action, sha: string)
    requires Inv(env, t) && Eligible(env, env.treeOf(sha), path)
    requires a.Index? && a == ActionFor(env, mode, env.treeOf(sha), path)
    requires path !in t.files
    ensures UpsertEffect(env, t, UpsertFile(env, mode, t, path, a, sha), path, a, sha)
  {
    var row := FileRow(t.nextId, a.language, env.hash(a.content), a.size, sha);
    WriteRowKeepsInv(env, t, path, row, t.nextId + 1);
    NewIdHasNoChunks(t);
    assert UpsertFile(env, mode, t, path, a, sha) == t.(files := t.files[path := row], nextId := t.nextId + 1);
  }

  lemma NewIdHasNoChunks(t: Tables)
    requires Valid(t)
    ensures ChunksOf(t.chunks, t.nextId) == []
  {
    forall c | c in t.chunks ensures c.fileId != t.nextId { assert HasFile(t, c.fileId); }
    NoChunksOf(t.chunks, t.nextId);
  }

  lemma UpsertStep(env: Env, mode: Mode, t: Tables, path: string, a: Action, sha: string)
    requires Inv(env, t) && Eligible(env, env.treeOf(sha), path)
    requires a.Index? && a == ActionFor(env, mode, env.treeOf(sha), path)
    ensures UpsertEffect(env, t, UpsertFile(env, mode, t, path, a, sha), path, a, sha)
  {
    if path in t.files {
      UpdateStep(env, mode, t, path, a, sha);
    } else {
      InsertStep(env, mode, t, path, a, sha);
    }
  }

  lemma PurgeStep(env: Env, t: Tables, paths: set<string>)
    requires Inv(env, t)
    ensures var u := DeleteFiles(t, paths);
            && Inv(env, u) && ChunksWithin(t, u)
            && (forall q :: q !in paths ==> SameAt(t, u, q))
            && (forall q :: q in paths ==> q !in u.files)
  {
    DeleteFilesKeepsValid(t, paths);
    KeepChunksMembers(t.chunks, FileIds(t, paths));
  }

  lemma {:induction false} MakeRowsMeaning(env: Env, fileId: nat, language: string, chunks: seq<Chunk>, nextId: nat)
    ensures ChunksOf(MakeRows(env, fileId, language, chunks, nextId), fileId) == chunks
    ensures forall other: nat :: other != fileId ==>
              ChunksOf(MakeRows(env, fileId, language, chunks, nextId), other) == []
    ensures var rows := MakeRows(env, fileId, language, chunks, nextId);
            |rows| == |chunks| && forall k :: 0 <= k < |rows| ==>
              rows[k] == ChunkRow(nextId + k, fileId, chunks[k], language, env.hash(chunks[k].content), env.modelVersion)
    decreases |chunks|
  {
    var rows := MakeRows(env, fileId, language, chunks, nextId);
    if chunks == [] {
    } else {
      assert rows[1..] == MakeRows(env, fileId, language, chunks[1..], nextId + 1);
      MakeRowsMeaning(env, fileId, language, chunks[1..], nextId + 1);
    }
    forall other: nat | other != fileId ensures ChunksOf(rows, other) == [] {
      NoChunksOf(rows, other);
    }
  }

  ghost predicate SeenFile(t: Tables, seen: seq<string>, fileId: nat) {
    exists p :: p in seen && p in t.files && t.files[p].id == fileId
  }

  /** Kept by every step of a run: new rows have new ids and belong to files already seen. */
  ghost predicate RunInv(env: Env, base: nat, seen: seq<string>, r: Run) {
    && Inv(env, r.t) && base <= r.t.nextId
    && (forall c :: c in r.t.chunks ==> c.id < base)
    && (forall c :: c in r.rows ==> base <= c.id < r.t.nextId && c.modelVersion == env.modelVersion)
    && (forall c :: c in r.rows ==> SeenFile(r.t, seen, c.fileId)) && UniqueIds(r.rows)
  }

  /** The effect of the walk on a path that it has, or has not, reached. */
  ghost predicate PathState(env: Env, mode: Mode, sha: string, seen: bool, before: Tables, r: Run, path: string) {
    var a := ActionFor(env, mode, env.treeOf(sha), path);
    if seen && a.Index? then
      && path in r.t.files && r.t.files[path].sha == sha
      && r.t.files[path].contentHash == env.hash(a.content) && r.t.files[path].size == a.size
      && ChunksOf(r.t.chunks, r.t.files[path].id) == []
      && ChunksOf(r.rows, r.t.files[path].id) == env.chunkFile(a.content, a.language)
    else if seen && a.Purge? then path !in r.t.files
    else SameAt(before, r.t, path) && (path in r.t.files ==> ChunksOf(r.rows, r.t.files[path].id) == [])
  }

  lemma OldRowsStaySeen(env: Env, base: nat, seen: seq<string>, path: string, r: Run, u: Tables)
    requires RunInv(env, base, seen, r) && path !in seen
    requires forall q :: q != path ==> SameAt(r.t, u, q)
    ensures forall c :: c in r.rows ==> SeenFile(u, seen + [path], c.fileId)
  {
    forall c | c in r.rows ensures SeenFile(u, seen + [path], c.fileId) {
      var p :| p in seen && p in r.t.files && r.t.files[p].id == c.fileId;
      assert p in seen + [path] && SameAt(r.t, u, p);
    }
  }

  lemma NewRows(env: Env, fileId: nat, language: string, chunks: seq<Chunk>, nextId: nat)
    ensures var rows := MakeRows(env, fileId, language, chunks, nextId);
            UniqueIds(rows) && forall c :: c in rows ==>
              nextId <= c.id < nextId + |chunks| && c.modelVersion == env.modelVersion && c.fileId == fileId
  {}

  lemma IndexVisit(env: Env, mode: Mode, sha: string, base: nat, seen: seq<string>, path: string, r: Run)
    requires RunInv(env, base, seen, r) && Eligible(env, env.treeOf(sha), path) && path !in seen
    requires ActionFor(env, mode, env.treeOf(sha), path).Index?
    ensures RunInv(env, base, seen + [path], Visit(env, mode, sha, path, r))
  {
    var a := ActionFor(env, mode, env.treeOf(sha), path);
    var u := UpsertFile(env, mode, r.t, path, a, sha);
    var after := Visit(env, mode, sha, path, r);
    OldRowsStaySeen(env, base, seen, path, r, r.t);
    if after.alive {
      UpsertStep(env, mode, r.t, path, a, sha);
      OldRowsStaySeen(env, base, seen, path, r, u);
      var chunks := env.chunkFile(a.content, a.language);
      NewRows(env, u.files[path].id, a.language, chunks, u.nextId);
      var rows := MakeRows(env, u.files[path].id, a.language, chunks, u.nextId);
      assert path in seen + [path] && SeenFile(u, seen + [path], u.files[path].id);
      ValidUnderMoreIds(env, u, after.t.nextId);
      AppendRows(env, base, seen + [path], u, r.rows, rows, after);
    }
  }

  lemma AppendRows(env: Env, base: nat, seen: seq<string>, u: Tables, kept: seq<ChunkRow>, added: seq<ChunkRow>, after: Run)
    requires Inv(env, after.t) && base <= u.nextId <= after.t.nextId && after.t == u.(nextId := after.t.nextId)
    requires after.rows == kept + added && UniqueIds(kept) && UniqueIds(added)
    requires forall c :: c in u.chunks ==> c.id < base
    requires forall c :: c in kept + added ==> SeenFile(u, seen, c.fileId) && c.modelVersion == env.modelVersion
    requires forall c :: c in kept ==> base <= c.id < u.nextId
    requires forall c :: c in added ==> u.nextId <= c.id < after.t.nextId
    ensures RunInv(env, base, seen, after)
  {
    forall c | c in after.rows ensures SeenFile(after.t, seen, c.fileId) { assert SeenFile(u, seen, c.fileId); }
  }

  lemma ValidUnderMoreIds(env: Env, t: Tables, nextId: nat)
    requires Inv(env, t) && t.nextId <= nextId
    ensures Inv(env, t.(nextId := nextId))
  {
    var u := t.(nextId := nextId);
    forall c | c in u.chunks ensures HasFile(u, c.fileId) { assert HasFile(t, c.fileId); }
  }

  lemma VisitKeepsRunInv(env: Env, mode: Mode, sha: string, base: nat, seen: seq<string>, path: string, r: Run)
    requires RunInv(env, base, seen, r) && path !in seen && !env.inGitRoot(path)
    ensures RunInv(env, base, seen + [path], Visit(env, mode, sha, path, r))
  {
    var a := ActionFor(env, mode, env.treeOf(sha), path);
    var after := Visit(env, mode, sha, path, r);
    if a.Index? {
      IndexVisit(env, mode, sha, base, seen, path, r);
    } else {
      PurgeStep(env, r.t, {path});
      OldRowsStaySeen(env, base, seen, path, r, after.t);
    }
  }

  lemma {:induction false} WalkKeepsRunInv(env: Env, mode: Mode, sha: string, base: nat, walk: seq<string>, n: nat, r: Run)
    requires n <= |walk| && IsWalk(env, env.treeOf(sha), walk) && RunInv(env, base, [], r)
    ensures RunInv(env, base, walk[..n], VisitAll(env, mode, sha, walk, n, r))
  {
    if n > 0 {
      WalkKeepsRunInv(env, mode, sha, base, walk, n - 1, r);
      NextKeepsRunInv(env, mode, sha, base, walk, n - 1, VisitAll(env, mode, sha, walk, n - 1, r));
    } else {
      assert walk[..n] == [];
    }
  }

  lemma NextKeepsRunInv(env: Env, mode: Mode, sha: string, base: nat, walk: seq<string>, n: nat, r: Run)
    requires n < |walk| && IsWalk(env, env.treeOf(sha), walk) && RunInv(env, base, walk[..n], r)
    ensures RunInv(env, base, walk[..n + 1], Visit(env, mode, sha, walk[n], r))
  {
    TakeNext(walk, n);
    assert walk[n] in walk && walk[n] !in walk[..n];
    VisitKeepsRunInv(env, mode, sha, base, walk[..n], walk[n], r);
  }

  /** Visiting another file leaves a path alone, alive or not. */
  lemma VisitElsewhere(env: Env, mode: Mode, sha: string, path: string, other: string, r: Run)
    requires Inv(env, r.t) && path != other && !env.inGitRoot(other)
    ensures var after := Visit(env, mode, sha, other, r);
            SameAt(r.t, after.t, path)
            && (path in r.t.files ==> ChunksOf(after.rows, r.t.files[path].id) == ChunksOf(r.rows, r.t.files[path].id))
  {
    var a := ActionFor(env, mode, env.treeOf(sha), other);
    var after := Visit(env, mode, sha, other, r);
    if a.Index? {
      UpsertStep(env, mode, r.t, other, a, sha);
      var u := UpsertFile(env, mode, r.t, other, a, sha);
      assert SameAt(r.t, u, path);
      if path in r.t.files && after.alive {
        var chunks := env.chunkFile(a.content, a.language);
        var rows := MakeRows(env, u.files[other].id, a.language, chunks, u.nextId);
        assert u.files[other].id != u.files[path].id;
        MakeRowsMeaning(env, u.files[other].id, a.language, chunks, u.nextId);
        ChunksOfAppend(r.rows, rows, r.t.files[path].id);
      }
    } else {
      PurgeStep(env, r.t, {other});
      assert SameAt(r.t, DeleteFiles(r.t, {other}), path);
    }
  }

  /** No accumulated row belongs to a path that the walk has not reached. */
  lemma UnseenHasNoRows(env: Env, base: nat, seen: seq<string>, r: Run, path: string)
    requires RunInv(env, base, seen, r) && path !in seen && path in r.t.files
    ensures ChunksOf(r.rows, r.t.files[path].id) == []
  {
    forall c | c in r.rows ensures c.fileId != r.t.files[path].id { assert SeenFile(r.t, seen, c.fileId); }
    NoChunksOf(r.rows, r.t.files[path].id);
  }

  lemma VisitHere(env: Env, mode: Mode, sha: string, base: nat, seen: seq<string>, path: string, before: Tables, r: Run)
    requires RunInv(env, base, seen, r) && path !in seen && !env.inGitRoot(path)
    requires SameAt(before, r.t, path)
    requires Visit(env, mode, sha, path, r).alive
    ensures PathState(env, mode, sha, true, before, Visit(env, mode, sha, path, r), path)
  {
    var a := ActionFor(env, mode, env.treeOf(sha), path);
    if a.Index? {
      UpsertStep(env, mode, r.t, path, a, sha);
      var u := UpsertFile(env, mode, r.t, path, a, sha);
      var fileId, chunks := u.files[path].id, env.chunkFile(a.content, a.language);
      MakeRowsMeaning(env, fileId, a.language, chunks, u.nextId);
      ChunksOfAppend(r.rows, MakeRows(env, fileId, a.language, chunks, u.nextId), fileId);
      if path in r.t.files {
        UnseenHasNoRows(env, base, seen, r, path);
      } else {
        forall c | c in r.rows ensures c.fileId != fileId { assert SeenFile(r.t, seen, c.fileId); }
        NoChunksOf(r.rows, fileId);
      }
    } else if a.Purge? {
      PurgeStep(env, r.t, {path});
    } else if path in r.t.files {
      UnseenHasNoRows(env, base, seen, r, path);
    }
  }

  lemma {:induction false} AliveBefore(env: Env, mode: Mode, sha: string, walk: seq<string>, k: nat, n: nat, r: Run)
    requires k <= n <= |walk| && VisitAll(env, mode, sha, walk, n, r).alive
    ensures VisitAll(env, mode, sha, walk, k, r).alive
    decreases n
  {
    if k == n {
    } else {
      AliveBefore(env, mode, sha, walk, k, n - 1, r);
    }
  }

  lemma NextPathState(env: Env, mode: Mode, sha: string, base: nat, walk: seq<string>, n: nat, r: Run, path: string)
    requires n < |walk| && IsWalk(env, env.treeOf(sha), walk) && RunInv(env, base, [], r)
    requires PathState(env, mode, sha, path in walk[..n], r.t, VisitAll(env, mode, sha, walk, n, r), path)
    requires VisitAll(env, mode, sha, walk, n + 1, r).alive
    ensures PathState(env, mode, sha, path in walk[..n + 1], r.t, VisitAll(env, mode, sha, walk, n + 1, r), path)
  {
    var mid := VisitAll(env, mode, sha, walk, n, r);
    WalkKeepsRunInv(env, mode, sha, base, walk, n, r);
    TakeNext(walk, n);
    assert walk[n] in walk && walk[n] !in walk[..n];
    if path == walk[n] {
      VisitHere(env, mode, sha, base, walk[..n], path, r.t, mid);
    } else {
      VisitElsewhere(env, mode, sha, path, walk[n], mid);
    }
  }

  lemma PathAtStart(env: Env, mode: Mode, sha: string, base: nat, r: Run, path: string)
    requires RunInv(env, base, [], r)
    ensures PathState(env, mode, sha, false, r.t, r, path)
  {
    if path in r.t.files { UnseenHasNoRows(env, base, [], r, path); }
  }

  /** After n files the state of every path is known, for a run that is still alive. */
  lemma {:induction false} PathAfterWalk(env: Env, mode: Mode, sha: string, base: nat, walk: seq<string>, n: nat,
                                         r: Run, path: string)
    requires n <= |walk| && IsWalk(env, env.treeOf(sha), walk) && RunInv(env, base, [], r)
    requires VisitAll(env, mode, sha, walk, n, r).alive
    ensures PathState(env, mode, sha, path in walk[..n], r.t, VisitAll(env, mode, sha, walk, n, r), path)
  {
    PathAtStart(env, mode, sha, base, r, path);
    for k := 0 to n
      invariant PathState(env, mode, sha, path in walk[..k], r.t, VisitAll(env, mode, sha, walk, k, r), path)
    {
      AliveBefore(env, mode, sha, walk, k + 1, n, r);
      NextPathState(env, mode, sha, base, walk, k, r, path);
    }
  }

  /** A path that the walk never acts on stays as it was, alive or not. */
  lemma {:induction false} UntouchedByWalk(env: Env, mode: Mode, sha: string, base: nat, walk: seq<string>, n: nat,
                                           r: Run, path: string)
    requires n <= |walk| && IsWalk(env, env.treeOf(sha), walk) && RunInv(env, base, [], r)
    requires path in walk ==> ActionFor(env, mode, env.treeOf(sha), path).Skip?
    ensures SameAt(r.t, VisitAll(env, mode, sha, walk, n, r).t, path)
  {
    if n == 0 {
    } else {
      UntouchedByWalk(env, mode, sha, base, walk, n - 1, r, path);
      WalkKeepsRunInv(env, mode, sha, base, walk, n - 1, r);
      if path != walk[n - 1] {
        VisitElsewhere(env, mode, sha, path, walk[n - 1], VisitAll(env, mode, sha, walk, n - 1, r));
      }
    }
  }
}
