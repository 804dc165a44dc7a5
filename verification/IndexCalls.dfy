/**
 Which relationships have an edge after an incremental run. The edges of a finished run lie
 inside the part of the index that the run leaves alone or inside the part that it indexes:
 calls across are lost or become external. Into which file an edge goes, and when that
 agrees with a full run, is said in IndexTargets and IndexAgreement.
 */
module IndexCalls {
  import opened Wrappers
  import opened SourceChunks
  import opened IndexTables
  import opened IndexRuns
  import opened IndexSteps
  import opened IndexTheorems
  import opened IndexExactness
  import opened IndexEdges
  import Embedding

  // ----- edges by the names they join -----

  predicate IsRow(u: Tables, path: string, c: ChunkRow, id: nat, symbol: string) {
    c in u.chunks && path in u.files && c.id == id && c.fileId == u.files[path].id && c.chunk.symbol == symbol
  }

  /** The chunk with this id is one of the file, and has this name. */
  ghost predicate At(u: Tables, path: string, id: nat, symbol: string) {
    exists c :: IsRow(u, path, c, id, symbol)
  }

  ghost predicate InSomeFile(u: Tables, id: nat, symbol: string) {
    exists q :: At(u, q, id, symbol)
  }

  /** The edge says what the relationship says: which of the file's chunks refers to which name, and how. */
  ghost predicate Records(u: Tables, path: string, rel: Relationship, e: EdgeRow) {
    e.kind == rel.kind && At(u, path, e.from, PyStr(rel.fromSymbol)) && TargetNamed(u, e, rel.target)
  }

  ghost predicate TargetNamed(u: Tables, e: EdgeRow, name: string) {
    match e.to
    case Some(id) => InSomeFile(u, id, name)
    case None => e.external == Some(name)
  }

  lemma AtIsUnique(u: Tables, p: string, q: string, id: nat, a: string, b: string)
    requires Valid(u) && At(u, p, id, a) && At(u, q, id, b)
    ensures p == q && a == b
  {
    var c :| IsRow(u, p, c, id, a);
    var d :| IsRow(u, q, d, id, b);
    assert c == d;
  }

  // ----- what a finished incremental run gives -----

  ghost predicate Kept(env: Env, changed: set<string>, tree: Tree, t: Tables, e: EdgeRow) {
    e in t.edges && FileLeftAlone(env, changed, tree, t, e.from)
    && (e.to.Some? ==> FileLeftAlone(env, changed, tree, t, e.to.value))
  }

  ghost predicate SomeNewEdge(env: Env, changed: set<string>, tree: Tree, w: Run, e: EdgeRow) {
    exists p :: NewEdge(env, changed, tree, w, p, e)
  }

  ghost predicate RowsFromReached(env: Env, changed: set<string>, tree: Tree, w: Run, c: ChunkRow) {
    exists q :: Reached(env, changed, tree, q) && q in w.t.files && w.t.files[q].id == c.fileId
  }

  predicate LeftIffUnreached(env: Env, changed: set<string>, tree: Tree, t: Tables, w: Run, c: ChunkRow, p: string) {
    c in t.chunks && p in t.files && t.files[p].id == c.fileId ==> (c in w.t.chunks <==> !Reached(env, changed, tree, p))
  }

  predicate RowStays(env: Env, changed: set<string>, tree: Tree, t: Tables, u: Tables, p: string) {
    p in t.files && !Reached(env, changed, tree, p) ==> p in u.files && u.files[p] == t.files[p]
  }

  /** t is the index before the run, w the state after its walk, and u the index after it. */
  ghost predicate Outcome(env: Env, changed: set<string>, tree: Tree, t: Tables, w: Run, u: Tables) {
    && Valid(t) && Valid(u) && u.files == w.t.files && u.chunks == w.t.chunks + w.rows
    && (forall e :: e in u.edges <==> Kept(env, changed, tree, t, e) || SomeNewEdge(env, changed, tree, w, e))
    && (forall c, p :: LeftIffUnreached(env, changed, tree, t, w, c, p))
    && (forall p :: RowStays(env, changed, tree, t, u, p))
    && (forall c :: c in w.rows ==> RowsFromReached(env, changed, tree, w, c))
    && (forall p :: IndexedWhenReached(env, changed, tree, w, p))
  }

  ghost predicate IndexedWhenReached(env: Env, changed: set<string>, tree: Tree, w: Run, p: string) {
    Reached(env, changed, tree, p) && Eligible(env, tree, p) ==>
      p in w.t.files && ChunksOf(w.rows, w.t.files[p].id) == ChunksIn(env, tree, p)
  }

  function ChunksIn(env: Env, tree: Tree, path: string): seq<Chunk>
    requires Eligible(env, tree, path)
  {
    env.chunkFile(tree[path].content, env.languageOf(path).value)
  }

  lemma StoredTables(env: Env, oracle: Embedding.Oracle, calls: nat, changed: set<string>, t: Tables, sha: string,
                     walk: seq<string>, life: nat)
    requires Inv(env, t) && IsWalk(env, env.treeOf(sha), walk)
    requires IndexRun(env, oracle, calls, Incremental(changed), t, sha, walk, life).alive
    ensures var w := Walked(env, Incremental(changed), t, calls, sha, walk, life);
            var u := IndexRun(env, oracle, calls, Incremental(changed), t, sha, walk, life).t;
            w.alive && u.files == w.t.files && u.chunks == w.t.chunks + w.rows
  {
    var w := Walked(env, Incremental(changed), t, calls, sha, walk, life);
    WalkedStep(env, Incremental(changed), t, calls, sha, walk, life);
    ReadyStep(env, oracle, t.nextId, walk, w);
  }

  lemma RowIsFromReached(env: Env, changed: set<string>, t: Tables, calls: nat, sha: string, walk: seq<string>, life: nat,
                         c: ChunkRow)
    requires Inv(env, t) && IsWalk(env, env.treeOf(sha), walk)
    requires Walked(env, Incremental(changed), t, calls, sha, walk, life).alive
    requires c in Walked(env, Incremental(changed), t, calls, sha, walk, life).rows
    ensures RowsFromReached(env, changed, env.treeOf(sha), Walked(env, Incremental(changed), t, calls, sha, walk, life), c)
  {
    var w := Walked(env, Incremental(changed), t, calls, sha, walk, life);
    WalkedStep(env, Incremental(changed), t, calls, sha, walk, life);
    assert SeenFile(w.t, walk, c.fileId);
    var q :| q in walk && q in w.t.files && w.t.files[q].id == c.fileId;
    AliveWalk(env, Incremental(changed), t, calls, sha, walk, life, q);
    NoChunksOf(w.rows, c.fileId);
  }

  lemma EdgeOutcome(env: Env, oracle: Embedding.Oracle, calls: nat, changed: set<string>, t: Tables, sha: string,
                    walk: seq<string>, life: nat, e: EdgeRow)
    requires Inv(env, t) && IsWalk(env, env.treeOf(sha), walk)
    requires IndexRun(env, oracle, calls, Incremental(changed), t, sha, walk, life).alive
    ensures e in IndexRun(env, oracle, calls, Incremental(changed), t, sha, walk, life).t.edges
            <==> Kept(env, changed, env.treeOf(sha), t, e)
                 || SomeNewEdge(env, changed, env.treeOf(sha), Walked(env, Incremental(changed), t, calls, sha, walk, life), e)
  {
    IncrementalRunEdges(env, oracle, calls, changed, t, sha, walk, life, e);
  }

  lemma ChunkOutcome(env: Env, calls: nat, changed: set<string>, t: Tables, sha: string, walk: seq<string>, life: nat,
                     c: ChunkRow, p: string)
    requires Inv(env, t) && IsWalk(env, env.treeOf(sha), walk)
    requires Walked(env, Incremental(changed), t, calls, sha, walk, life).alive
    ensures LeftIffUnreached(env, changed, env.treeOf(sha), t, Walked(env, Incremental(changed), t, calls, sha, walk, life), c, p)
  {
    if c in t.chunks && p in t.files && t.files[p].id == c.fileId {
      ChunkLeftIff(env, calls, changed, t, sha, walk, life, p, c);
    }
  }

  lemma RowOutcome(env: Env, oracle: Embedding.Oracle, calls: nat, changed: set<string>, t: Tables, sha: string,
                    walk: seq<string>, life: nat, p: string)
    requires Inv(env, t) && IsWalk(env, env.treeOf(sha), walk)
    ensures RowStays(env, changed, env.treeOf(sha), t, IndexRun(env, oracle, calls, Incremental(changed), t, sha, walk, life).t, p)
  {
    if !Reached(env, changed, env.treeOf(sha), p) {
      IncrementalKeepsTheRest(env, oracle, calls, changed, t, sha, walk, life, p);
    }
  }

  lemma IndexedOutcome(env: Env, calls: nat, changed: set<string>, t: Tables, sha: string, walk: seq<string>, life: nat,
                       p: string)
    requires Inv(env, t) && IsWalk(env, env.treeOf(sha), walk)
    requires Walked(env, Incremental(changed), t, calls, sha, walk, life).alive
    ensures IndexedWhenReached(env, changed, env.treeOf(sha), Walked(env, Incremental(changed), t, calls, sha, walk, life), p)
  {
    AliveWalk(env, Incremental(changed), t, calls, sha, walk, life, p);
  }

  lemma FinishedRun(env: Env, oracle: Embedding.Oracle, calls: nat, changed: set<string>, t: Tables, sha: string,
                    walk: seq<string>, life: nat)
    requires Inv(env, t) && IsWalk(env, env.treeOf(sha), walk)
    requires IndexRun(env, oracle, calls, Incremental(changed), t, sha, walk, life).alive
    ensures Outcome(env, changed, env.treeOf(sha), t, Walked(env, Incremental(changed), t, calls, sha, walk, life),
                    IndexRun(env, oracle, calls, Incremental(changed), t, sha, walk, life).t)
  {
    StoredTables(env, oracle, calls, changed, t, sha, walk, life);
    EveryRunKeepsInv(env, oracle, calls, Incremental(changed), t, sha, walk, life);
    FinishedRunParts(env, oracle, calls, changed, t, sha, walk, life,
                     Walked(env, Incremental(changed), t, calls, sha, walk, life), IndexRun(env, oracle, calls, Incremental(changed), t, sha, walk, life).t);
  }

  lemma FinishedRunParts(env: Env, oracle: Embedding.Oracle, calls: nat, changed: set<string>, t: Tables, sha: string,
                    walk: seq<string>, life: nat,
                         w: Run, u: Tables)
    requires Inv(env, t) && IsWalk(env, env.treeOf(sha), walk)
    requires IndexRun(env, oracle, calls, Incremental(changed), t, sha, walk, life).alive
    requires w == Walked(env, Incremental(changed), t, calls, sha, walk, life) && w.alive
    requires u == IndexRun(env, oracle, calls, Incremental(changed), t, sha, walk, life).t
    requires Valid(u) && u.files == w.t.files && u.chunks == w.t.chunks + w.rows
    ensures Outcome(env, changed, env.treeOf(sha), t, w, u)
  {
    var tree := env.treeOf(sha);
    forall e ensures e in u.edges <==> Kept(env, changed, tree, t, e) || SomeNewEdge(env, changed, tree, w, e) {
      EdgeOutcome(env, oracle, calls, changed, t, sha, walk, life, e);
    }
    forall c, p ensures LeftIffUnreached(env, changed, tree, t, w, c, p) {
      ChunkOutcome(env, calls, changed, t, sha, walk, life, c, p);
    }
    forall p ensures RowStays(env, changed, tree, t, u, p) {
      RowOutcome(env, oracle, calls, changed, t, sha, walk, life, p);
    }
    forall c | c in w.rows ensures RowsFromReached(env, changed, tree, w, c) {
      RowIsFromReached(env, changed, t, calls, sha, walk, life, c);
    }
    forall p ensures IndexedWhenReached(env, changed, tree, w, p) {
      IndexedOutcome(env, calls, changed, t, sha, walk, life, p);
    }
  }

  // ----- the two parts of the index -----

  /** A chunk of a file that the run leaves alone is the same row before and after. */
  lemma LeftAloneAt(env: Env, changed: set<string>, tree: Tree, t: Tables, w: Run, u: Tables, id: nat)
    returns (p: string, symbol: string)
    requires Outcome(env, changed, tree, t, w, u) && FileLeftAlone(env, changed, tree, t, id)
    ensures !Reached(env, changed, tree, p) && At(t, p, id, symbol) && At(u, p, id, symbol)
  {
    var c, q :| c in t.chunks && c.id == id && q in t.files && t.files[q].id == c.fileId && !Reached(env, changed, tree, q);
    assert LeftIffUnreached(env, changed, tree, t, w, c, q) && RowStays(env, changed, tree, t, u, q);
    p, symbol := q, c.chunk.symbol;
    assert IsRow(t, p, c, id, symbol) && IsRow(u, p, c, id, symbol);
  }

  lemma UnreachedIsLeftAlone(env: Env, changed: set<string>, tree: Tree, t: Tables, p: string, id: nat, symbol: string)
    requires At(t, p, id, symbol) && !Reached(env, changed, tree, p)
    ensures FileLeftAlone(env, changed, tree, t, id)
  {
    var c :| IsRow(t, p, c, id, symbol);
  }

  /** A row of the run belongs to a file on which the run acts. */
  lemma NewRowAt(env: Env, changed: set<string>, tree: Tree, t: Tables, w: Run, u: Tables, c: ChunkRow) returns (p: string)
    requires Outcome(env, changed, tree, t, w, u) && c in w.rows
    ensures Reached(env, changed, tree, p) && At(u, p, c.id, c.chunk.symbol)
  {
    assert RowsFromReached(env, changed, tree, w, c);
    p :| Reached(env, changed, tree, p) && p in w.t.files && w.t.files[p].id == c.fileId;
    assert IsRow(u, p, c, c.id, c.chunk.symbol);
  }

  lemma NewEdgeFrom(env: Env, changed: set<string>, tree: Tree, t: Tables, w: Run, u: Tables, e: EdgeRow)
    returns (p: string, symbol: string)
    requires Outcome(env, changed, tree, t, w, u) && SomeNewEdge(env, changed, tree, w, e)
    ensures Reached(env, changed, tree, p) && At(u, p, e.from, symbol)
  {
    var path :| NewEdge(env, changed, tree, w, path, e);
    var spec := SpecOfFile(env, tree, w.t, path);
    var k :| 0 <= k < |spec.relationships| && EdgeFor(e, w.rows, spec.fileId, spec.relationships[k]);
    var i :| IsLast(w.rows, Some(spec.fileId), PyStr(spec.relationships[k].fromSymbol), i) && w.rows[i].id == e.from;
    p := NewRowAt(env, changed, tree, t, w, u, w.rows[i]);
    symbol := w.rows[i].chunk.symbol;
  }

  lemma NewEdgeTo(env: Env, changed: set<string>, tree: Tree, t: Tables, w: Run, u: Tables, e: EdgeRow)
    returns (p: string, symbol: string)
    requires Outcome(env, changed, tree, t, w, u) && SomeNewEdge(env, changed, tree, w, e) && e.to.Some?
    ensures Reached(env, changed, tree, p) && At(u, p, e.to.value, symbol)
  {
    var path :| NewEdge(env, changed, tree, w, path, e);
    var spec := SpecOfFile(env, tree, w.t, path);
    var k :| 0 <= k < |spec.relationships| && EdgeFor(e, w.rows, spec.fileId, spec.relationships[k]);
    var name := spec.relationships[k].target;
    var scope: Option<nat> := if Defined(w.rows, Some(spec.fileId), name) then Some(spec.fileId) else None;
    var i :| IsLast(w.rows, scope, name, i) && w.rows[i].id == e.to.value;
    p := NewRowAt(env, changed, tree, t, w, u, w.rows[i]);
    symbol := w.rows[i].chunk.symbol;
  }

  /** The side that an edge of the new index starts on decides whether it is an old one. */
  lemma SideOfEdge(env: Env, changed: set<string>, tree: Tree, t: Tables, w: Run, u: Tables, e: EdgeRow, p: string, a: string)
    requires Outcome(env, changed, tree, t, w, u) && e in u.edges && At(u, p, e.from, a)
    ensures if Reached(env, changed, tree, p) then SomeNewEdge(env, changed, tree, w, e) else Kept(env, changed, tree, t, e)
  {
    if Kept(env, changed, tree, t, e) {
      var q, b := LeftAloneAt(env, changed, tree, t, w, u, e.from);
      AtIsUnique(u, p, q, e.from, a, b);
    } else {
      var q, b := NewEdgeFrom(env, changed, tree, t, w, u, e);
      AtIsUnique(u, p, q, e.from, a, b);
    }
  }

  /**
   After a finished incremental run no internal edge crosses between the files that the run
   leaves alone and those on which it acts.
   */
  lemma NoEdgeCrosses(env: Env, oracle: Embedding.Oracle, calls: nat, changed: set<string>, t: Tables, sha: string,
                      walk: seq<string>, life: nat, e: EdgeRow, p: string, a: string, q: string, b: string)
    requires Inv(env, t) && IsWalk(env, env.treeOf(sha), walk)
    requires IndexRun(env, oracle, calls, Incremental(changed), t, sha, walk, life).alive
    requires var u := IndexRun(env, oracle, calls, Incremental(changed), t, sha, walk, life).t;
             e in u.edges && e.to.Some? && At(u, p, e.from, a) && At(u, q, e.to.value, b)
    ensures Reached(env, changed, env.treeOf(sha), p) <==> Reached(env, changed, env.treeOf(sha), q)
  {
    var w := Walked(env, Incremental(changed), t, calls, sha, walk, life);
    FinishedRun(env, oracle, calls, changed, t, sha, walk, life);
    EndsAgree(env, changed, env.treeOf(sha), t, w, IndexRun(env, oracle, calls, Incremental(changed), t, sha, walk, life).t,
              e, p, a, q, b);
  }

  lemma EndsAgree(env: Env, changed: set<string>, tree: Tree, t: Tables, w: Run, u: Tables, e: EdgeRow,
                  p: string, a: string, q: string, b: string)
    requires Outcome(env, changed, tree, t, w, u) && e in u.edges && e.to.Some?
    requires At(u, p, e.from, a) && At(u, q, e.to.value, b)
    ensures Reached(env, changed, tree, p) <==> Reached(env, changed, tree, q)
  {
    SideOfEdge(env, changed, tree, t, w, u, e, p, a);
    if Reached(env, changed, tree, p) {
      var x, c := NewEdgeTo(env, changed, tree, t, w, u, e);
      AtIsUnique(u, q, x, e.to.value, b, c);
    } else {
      var x, c := LeftAloneAt(env, changed, tree, t, w, u, e.to.value);
      AtIsUnique(u, q, x, e.to.value, b, c);
    }
  }

  // ----- a full index records every relationship -----

  function RelationshipsOf(env: Env, tree: Tree, path: string): seq<Relationship>
    requires Eligible(env, tree, path)
  {
    var content, language := tree[path].content, env.languageOf(path).value;
    env.extract(content, language, env.chunkFile(content, language))
  }

  /** What a finished full run leaves: the exact files and chunks, and exactly their edges. */
  ghost predicate FullyIndexed(env: Env, tree: Tree, t: Tables) {
    Valid(t) && Exact(env, tree, t) && forall e :: e in t.edges <==> SomeFilesEdge(env, tree, t, e)
  }

  ghost predicate SomeFilesEdge(env: Env, tree: Tree, t: Tables, e: EdgeRow) {
    exists p :: EdgeOfFile(env, tree, t, p, e)
  }

  lemma FullRunIndexesFully(env: Env, oracle: Embedding.Oracle, calls: nat, t: Tables, sha: string, walk: seq<string>, life: nat)
    requires Inv(env, t) && IsWalk(env, env.treeOf(sha), walk)
    requires IndexRun(env, oracle, calls, Full, t, sha, walk, life).alive
    ensures FullyIndexed(env, env.treeOf(sha), IndexRun(env, oracle, calls, Full, t, sha, walk, life).t)
  {
    var u := IndexRun(env, oracle, calls, Full, t, sha, walk, life).t;
    EveryRunKeepsInv(env, oracle, calls, Full, t, sha, walk, life);
    forall p ensures ExactAt(env, env.treeOf(sha), u, p) {
      FullRunExactAt(env, oracle, calls, t, sha, walk, life, p);
    }
    forall e ensures e in u.edges <==> SomeFilesEdge(env, env.treeOf(sha), u, e) {
      FullRunEdges(env, oracle, calls, t, sha, walk, life, e);
    }
  }

  function CallerId(t: Tables, path: string, rel: Relationship): Option<nat>
    requires path in t.files
  {
    LastScoped(t.chunks, t.files[path].id, PyStr(rel.fromSymbol))
  }

  function TargetId(t: Tables, path: string, rel: Relationship): Option<nat>
    requires path in t.files
  {
    Target(t.chunks, t.files[path].id, rel.target)
  }

  function EdgeOf(t: Tables, path: string, rel: Relationship): EdgeRow
    requires path in t.files && CallerId(t, path, rel).Some?
  {
    var to := TargetId(t, path, rel);
    EdgeRow(CallerId(t, path, rel).value, to, rel.kind, if to.Some? then None else Some(rel.target))
  }

  lemma NamedRowIsInAFile(t: Tables, c: ChunkRow)
    requires Valid(t) && c in t.chunks
    ensures InSomeFile(t, c.id, c.chunk.symbol)
  {
    assert HasFile(t, c.fileId);
    var q :| q in t.files && t.files[q].id == c.fileId;
    assert IsRow(t, q, c, c.id, c.chunk.symbol);
    assert At(t, q, c.id, c.chunk.symbol);
  }

  /** The edge of a relationship joins the chunks that it names. */
  lemma EdgeOfRecords(t: Tables, path: string, rel: Relationship)
    requires Valid(t) && path in t.files && CallerId(t, path, rel).Some?
    ensures Records(t, path, rel, EdgeOf(t, path, rel))
  {
    var fid, e := t.files[path].id, EdgeOf(t, path, rel);
    LookupMeaning(t.chunks, Some(fid), PyStr(rel.fromSymbol));
    var k :| IsLast(t.chunks, Some(fid), PyStr(rel.fromSymbol), k) && t.chunks[k].id == e.from;
    assert IsRow(t, path, t.chunks[k], e.from, PyStr(rel.fromSymbol));
    if e.to.Some? {
      var scope: Option<nat> := if LastScoped(t.chunks, fid, rel.target).Some? then Some(fid) else None;
      LookupMeaning(t.chunks, scope, rel.target);
      var i :| IsLast(t.chunks, scope, rel.target, i) && t.chunks[i].id == e.to.value;
      NamedRowIsInAFile(t, t.chunks[i]);
    }
  }

  lemma EdgeOfIsStored(env: Env, tree: Tree, t: Tables, path: string, rel: Relationship)
    requires FullyIndexed(env, tree, t) && Eligible(env, tree, path) && rel in RelationshipsOf(env, tree, path)
    requires path in t.files && CallerId(t, path, rel).Some?
    ensures EdgeOf(t, path, rel) in t.edges
  {
    var e, spec := EdgeOf(t, path, rel), SpecOfFile(env, tree, t, path);
    OneEdgeMeaning(t.chunks, spec.fileId, rel, e);
    var k :| 0 <= k < |spec.relationships| && spec.relationships[k] == rel;
    assert EdgeOfSpec(e, t.chunks, spec);
    assert EdgeOfFile(env, tree, t, path, e);
    assert SomeFilesEdge(env, tree, t, e);
  }

  /** And no other edge of a full index says the same. */
  lemma RecordingEdgeIsEdgeOf(env: Env, tree: Tree, t: Tables, path: string, rel: Relationship, e: EdgeRow)
    requires FullyIndexed(env, tree, t) && path in t.files && e in t.edges && Records(t, path, rel, e)
    ensures CallerId(t, path, rel).Some? && e == EdgeOf(t, path, rel)
  {
    assert SomeFilesEdge(env, tree, t, e);
    var p :| EdgeOfFile(env, tree, t, p, e);
    var spec := SpecOfFile(env, tree, t, p);
    var k :| 0 <= k < |spec.relationships| && EdgeFor(e, t.chunks, spec.fileId, spec.relationships[k]);
    var other := spec.relationships[k];
    OneEdgeMeaning(t.chunks, spec.fileId, other, e);
    EdgeOfRecords(t, p, other);
    assert e == EdgeOf(t, p, other);
    AtIsUnique(t, path, p, e.from, PyStr(rel.fromSymbol), PyStr(other.fromSymbol));
    SameTarget(t, e, rel.target, other.target);
  }

  lemma SameTarget(t: Tables, e: EdgeRow, a: string, b: string)
    requires Valid(t) && TargetNamed(t, e, a) && TargetNamed(t, e, b)
    ensures a == b
  {
    if e.to.Some? {
      var p :| At(t, p, e.to.value, a);
      var q :| At(t, q, e.to.value, b);
      AtIsUnique(t, p, q, e.to.value, a, b);
    }
  }

  // ----- relationships of files that the run leaves alone -----

  /** The chunk that the old index resolved the target to, if any, is in a file that the run leaves alone. */
  ghost predicate TargetLeftAlone(env: Env, changed: set<string>, tree: Tree, t: Tables, path: string, rel: Relationship)
    requires path in t.files
  {
    TargetId(t, path, rel).Some? ==> FileLeftAlone(env, changed, tree, t, TargetId(t, path, rel).value)
  }

  ghost predicate SomeEdgeRecords(u: Tables, path: string, rel: Relationship) {
    exists e :: e in u.edges && Records(u, path, rel, e)
  }

  lemma KeptEdgeRecords(env: Env, changed: set<string>, tree: Tree, t: Tables, w: Run, u: Tables, path: string, rel: Relationship,
                        e: EdgeRow)
    requires Outcome(env, changed, tree, t, w, u) && Kept(env, changed, tree, t, e)
    ensures Records(t, path, rel, e) <==> Records(u, path, rel, e)
  {
    var p, a := LeftAloneAt(env, changed, tree, t, w, u, e.from);
    if At(t, path, e.from, PyStr(rel.fromSymbol)) {
      AtIsUnique(t, path, p, e.from, PyStr(rel.fromSymbol), a);
    }
    if At(u, path, e.from, PyStr(rel.fromSymbol)) {
      AtIsUnique(u, path, p, e.from, PyStr(rel.fromSymbol), a);
    }
    KeptTargetNamed(env, changed, tree, t, w, u, e, rel.target);
  }

  lemma KeptTargetNamed(env: Env, changed: set<string>, tree: Tree, t: Tables, w: Run, u: Tables, e: EdgeRow, name: string)
    requires Outcome(env, changed, tree, t, w, u) && Kept(env, changed, tree, t, e)
    ensures TargetNamed(t, e, name) <==> TargetNamed(u, e, name)
  {
    if e.to.Some? {
      var q, b := LeftAloneAt(env, changed, tree, t, w, u, e.to.value);
      if x :| At(t, x, e.to.value, name) {
        AtIsUnique(t, x, q, e.to.value, name, b);
      }
      if x :| At(u, x, e.to.value, name) {
        AtIsUnique(u, x, q, e.to.value, name, b);
      }
    }
  }

  lemma OutcomeRecordsIff(env: Env, changed: set<string>, base: Tree, tree: Tree, t: Tables, w: Run, u: Tables, path: string,
                          rel: Relationship)
    requires Outcome(env, changed, tree, t, w, u) && FullyIndexed(env, base, t)
    requires Eligible(env, base, path) && rel in RelationshipsOf(env, base, path) && path in t.files
    requires !Reached(env, changed, tree, path) && CallerId(t, path, rel).Some?
    ensures SomeEdgeRecords(u, path, rel) <==> TargetLeftAlone(env, changed, tree, t, path, rel)
  {
    var e := EdgeOf(t, path, rel);
    EdgeOfRecords(t, path, rel);
    if TargetLeftAlone(env, changed, tree, t, path, rel) {
      EdgeOfIsStored(env, base, t, path, rel);
      UnreachedIsLeftAlone(env, changed, tree, t, path, e.from, PyStr(rel.fromSymbol));
      assert Kept(env, changed, tree, t, e);
      KeptEdgeRecords(env, changed, tree, t, w, u, path, rel, e);
    }
    if x :| x in u.edges && Records(u, path, rel, x) {
      SideOfEdge(env, changed, tree, t, w, u, x, path, PyStr(rel.fromSymbol));
      KeptEdgeRecords(env, changed, tree, t, w, u, path, rel, x);
      RecordingEdgeIsEdgeOf(env, base, t, path, rel, x);
    }
  }

  /**
   Exactly when an incremental run over a full index keeps the edge of a relationship of a
   file that it leaves alone: when the old target was external, or in such a file too.
   */
  lemma CallKeptIff(env: Env, oracle: Embedding.Oracle, calls: nat, changed: set<string>, t: Tables, base: string, sha: string,
                    walk: seq<string>, life: nat, path: string, rel: Relationship)
    requires Inv(env, t) && FullyIndexed(env, env.treeOf(base), t) && IsWalk(env, env.treeOf(sha), walk)
    requires IndexRun(env, oracle, calls, Incremental(changed), t, sha, walk, life).alive
    requires Eligible(env, env.treeOf(base), path) && rel in RelationshipsOf(env, env.treeOf(base), path)
    requires path in t.files && CallerId(t, path, rel).Some? && !Reached(env, changed, env.treeOf(sha), path)
    ensures SomeEdgeRecords(IndexRun(env, oracle, calls, Incremental(changed), t, sha, walk, life).t, path, rel)
            <==> TargetLeftAlone(env, changed, env.treeOf(sha), t, path, rel)
  {
    FinishedRun(env, oracle, calls, changed, t, sha, walk, life);
    OutcomeRecordsIff(env, changed, env.treeOf(base), env.treeOf(sha), t,
                      Walked(env, Incremental(changed), t, calls, sha, walk, life),
                      IndexRun(env, oracle, calls, Incremental(changed), t, sha, walk, life).t, path, rel);
  }

  /** No edge out of a file that the run leaves alone is lost if and only if none of them points into the other files. */
  lemma NoEdgeIsLostIff(env: Env, oracle: Embedding.Oracle, calls: nat, changed: set<string>, t: Tables, sha: string,
                        walk: seq<string>, life: nat)
    requires Inv(env, t) && IsWalk(env, env.treeOf(sha), walk)
    requires IndexRun(env, oracle, calls, Incremental(changed), t, sha, walk, life).alive
    ensures (forall e :: e in t.edges && FileLeftAlone(env, changed, env.treeOf(sha), t, e.from) ==>
                           e in IndexRun(env, oracle, calls, Incremental(changed), t, sha, walk, life).t.edges)
            <==> NonePointsOut(env, changed, env.treeOf(sha), t)
  {
    forall e | e in t.edges
      ensures e in IndexRun(env, oracle, calls, Incremental(changed), t, sha, walk, life).t.edges
              <==> Kept(env, changed, env.treeOf(sha), t, e)
    {
      OldEdgeSurvivesIff(env, oracle, calls, changed, t, sha, walk, life, e);
    }
  }

  ghost predicate NonePointsOut(env: Env, changed: set<string>, tree: Tree, t: Tables) {
    forall e :: e in t.edges && e.to.Some? && FileLeftAlone(env, changed, tree, t, e.from) ==>
                  FileLeftAlone(env, changed, tree, t, e.to.value)
  }

  // ----- the two runs compared -----

  /** A full index of the tree has a chunk of that name in the file. */
  predicate DefinesName(env: Env, tree: Tree, path: string, name: string) {
    Eligible(env, tree, path)
    && exists k :: 0 <= k < |ChunksIn(env, tree, path)| && ChunksIn(env, tree, path)[k].symbol == name
  }

  lemma {:induction false} ChunkOfRow(rows: seq<ChunkRow>, fileId: nat, c: ChunkRow) returns (k: nat)
    requires c in rows && c.fileId == fileId
    ensures k < |ChunksOf(rows, fileId)| && ChunksOf(rows, fileId)[k] == c.chunk
  {
    if rows[0] == c {
      k := 0;
    } else {
      assert rows == [rows[0]] + rows[1..];
      var m := ChunkOfRow(rows[1..], fileId, c);
      k := if rows[0].fileId == fileId then m + 1 else m;
    }
  }

  lemma {:induction false} RowOfChunk(rows: seq<ChunkRow>, fileId: nat, k: nat) returns (c: ChunkRow)
    requires k < |ChunksOf(rows, fileId)|
    ensures c in rows && c.fileId == fileId && c.chunk == ChunksOf(rows, fileId)[k]
  {
    if rows[0].fileId == fileId && k == 0 {
      c := rows[0];
    } else {
      c := RowOfChunk(rows[1..], fileId, if rows[0].fileId == fileId then k - 1 else k);
      assert rows == [rows[0]] + rows[1..];
    }
  }

  /** In an exact index the names of a file's rows are those that its chunks define. */
  lemma RowsDefineNames(env: Env, tree: Tree, u: Tables, path: string, id: nat, name: string)
    requires ExactAt(env, tree, u, path) && At(u, path, id, name)
    ensures DefinesName(env, tree, path, name)
  {
    var c :| IsRow(u, path, c, id, name);
    var k := ChunkOfRow(u.chunks, c.fileId, c);
    assert ChunksIn(env, tree, path)[k].symbol == name;
  }

  lemma DefinedNameHasRow(env: Env, tree: Tree, u: Tables, path: string, name: string)
    requires ExactAt(env, tree, u, path) && DefinesName(env, tree, path, name)
    ensures path in u.files && Defined(u.chunks, Some(u.files[path].id), name) && Defined(u.chunks, None, name)
  {
    var k :| 0 <= k < |ChunksIn(env, tree, path)| && ChunksIn(env, tree, path)[k].symbol == name;
    var c := RowOfChunk(u.chunks, u.files[path].id, k);
    assert Named(c, Some(u.files[path].id), name) && Named(c, None, name);
  }

  /** The caller of the relationship is a chunk of its file, and some file defines its target. */
  ghost predicate Resolvable(env: Env, tree: Tree, path: string, rel: Relationship) {
    Eligible(env, tree, path) && rel in RelationshipsOf(env, tree, path) && DefinesName(env, tree, path, PyStr(rel.fromSymbol))
    && exists q :: DefinesName(env, tree, q, rel.target)
  }

  ghost predicate SomeInternalEdgeRecords(u: Tables, path: string, rel: Relationship) {
    exists e :: e in u.edges && e.to.Some? && Records(u, path, rel, e)
  }

  lemma CallerIsKnown(env: Env, tree: Tree, t: Tables, path: string, rel: Relationship)
    requires Exact(env, tree, t) && DefinesName(env, tree, path, PyStr(rel.fromSymbol))
    ensures path in t.files && CallerId(t, path, rel).Some?
  {
    assert ExactAt(env, tree, t, path);
    DefinedNameHasRow(env, tree, t, path, PyStr(rel.fromSymbol));
    LookupMeaning(t.chunks, Some(t.files[path].id), PyStr(rel.fromSymbol));
  }

  lemma TargetIsKnown(env: Env, tree: Tree, t: Tables, path: string, rel: Relationship, q: string)
    requires Exact(env, tree, t) && path in t.files && DefinesName(env, tree, q, rel.target)
    ensures TargetId(t, path, rel).Some?
  {
    assert ExactAt(env, tree, t, q);
    DefinedNameHasRow(env, tree, t, q, rel.target);
    LookupMeaning(t.chunks, None, rel.target);
  }

  /** A full index has an internal edge for every resolvable relationship. */
  lemma FullIndexRecords(env: Env, tree: Tree, t: Tables, path: string, rel: Relationship)
    requires FullyIndexed(env, tree, t) && Resolvable(env, tree, path, rel)
    ensures SomeInternalEdgeRecords(t, path, rel)
  {
    var q :| DefinesName(env, tree, q, rel.target);
    CallerIsKnown(env, tree, t, path, rel);
    TargetIsKnown(env, tree, t, path, rel, q);
    EdgeOfIsStored(env, tree, t, path, rel);
    EdgeOfRecords(t, path, rel);
  }

  /** A full index has an edge for a relationship of an eligible file if and only if the caller's name is one of the file's chunks. */
  lemma EdgeIffCallerIsChunk(env: Env, tree: Tree, t: Tables, path: string, rel: Relationship)
    requires FullyIndexed(env, tree, t) && Eligible(env, tree, path) && rel in RelationshipsOf(env, tree, path)
    ensures SomeEdgeRecords(t, path, rel) <==> DefinesName(env, tree, path, PyStr(rel.fromSymbol))
  {
    if DefinesName(env, tree, path, PyStr(rel.fromSymbol)) {
      CallerIsKnown(env, tree, t, path, rel);
      EdgeOfIsStored(env, tree, t, path, rel);
      EdgeOfRecords(t, path, rel);
    }
    if e :| e in t.edges && Records(t, path, rel, e) {
      assert ExactAt(env, tree, t, path);
      RowsDefineNames(env, tree, t, path, e.from, PyStr(rel.fromSymbol));
    }
  }

  /** So a relationship without a caller has one if and only if a chunk of the file is called "None", and it starts there. */
  lemma TopLevelEdgeIff(env: Env, tree: Tree, t: Tables, path: string, rel: Relationship, e: EdgeRow)
    requires FullyIndexed(env, tree, t) && Eligible(env, tree, path) && rel in RelationshipsOf(env, tree, path)
    requires rel.fromSymbol == None
    ensures SomeEdgeRecords(t, path, rel) <==> DefinesName(env, tree, path, "None")
    ensures e in t.edges && Records(t, path, rel, e) ==> At(t, path, e.from, "None")
  {
    EdgeIffCallerIsChunk(env, tree, t, path, rel);
  }

  /** Every file that defines the target is one on which the run acts. */
  ghost predicate OnlyReachedDefine(env: Env, changed: set<string>, head: Tree, tree: Tree, name: string) {
    forall q :: DefinesName(env, tree, q, name) ==> Reached(env, changed, head, q)
  }

  /**
   A call from an untouched file into changed ones is lost: a full run of the new commit
   stores an internal edge for it, and the incremental run stores none that records it.
   */
  lemma CallIntoChangedFileIsLost(env: Env, oracle: Embedding.Oracle, calls: nat, changed: set<string>, t: Tables, base: string,
                                  sha: string, walk: seq<string>, life: nat, full: Tables, path: string, rel: Relationship)
    requires Inv(env, t) && FullyIndexed(env, env.treeOf(base), t) && IsWalk(env, env.treeOf(sha), walk)
    requires IndexRun(env, oracle, calls, Incremental(changed), t, sha, walk, life).alive
    requires FullyIndexed(env, env.treeOf(sha), full)
    requires RegularAt(env.treeOf(base), path) == RegularAt(env.treeOf(sha), path) && !Reached(env, changed, env.treeOf(sha), path)
    requires Resolvable(env, env.treeOf(base), path, rel) && Resolvable(env, env.treeOf(sha), path, rel)
    requires OnlyReachedDefine(env, changed, env.treeOf(sha), env.treeOf(base), rel.target)
    ensures SomeInternalEdgeRecords(full, path, rel)
    ensures !SomeEdgeRecords(IndexRun(env, oracle, calls, Incremental(changed), t, sha, walk, life).t, path, rel)
  {
    FullIndexRecords(env, env.treeOf(sha), full, path, rel);
    CallerIsKnown(env, env.treeOf(base), t, path, rel);
    TargetIsReached(env, changed, env.treeOf(base), env.treeOf(sha), t, path, rel);
    CallKeptIff(env, oracle, calls, changed, t, base, sha, walk, life, path, rel);
  }

  lemma TargetIsReached(env: Env, changed: set<string>, base: Tree, head: Tree, t: Tables, path: string, rel: Relationship)
    requires FullyIndexed(env, base, t) && Resolvable(env, base, path, rel) && path in t.files && CallerId(t, path, rel).Some?
    requires OnlyReachedDefine(env, changed, head, base, rel.target)
    ensures !TargetLeftAlone(env, changed, head, t, path, rel)
  {
    var x :| DefinesName(env, base, x, rel.target);
    TargetIsKnown(env, base, t, path, rel, x);
    var id := TargetId(t, path, rel).value;
    EdgeOfRecords(t, path, rel);
    var q :| At(t, q, id, rel.target);
    assert ExactAt(env, base, t, q);
    RowsDefineNames(env, base, t, q, id, rel.target);
    if FileLeftAlone(env, changed, head, t, id) {
      var c, p :| c in t.chunks && c.id == id && p in t.files && t.files[p].id == c.fileId && !Reached(env, changed, head, p);
      assert IsRow(t, p, c, id, c.chunk.symbol);
      AtIsUnique(t, p, q, id, c.chunk.symbol, rel.target);
    }
  }

  /** A new edge for every relationship of an indexed file whose caller is one of its chunks. */
  lemma IndexedFileRecords(env: Env, changed: set<string>, tree: Tree, t: Tables, w: Run, u: Tables, path: string, rel: Relationship)
    requires Outcome(env, changed, tree, t, w, u) && Reached(env, changed, tree, path)
    requires Eligible(env, tree, path) && rel in RelationshipsOf(env, tree, path)
    requires DefinesName(env, tree, path, PyStr(rel.fromSymbol))
    ensures SomeEdgeRecords(u, path, rel)
  {
    assert IndexedWhenReached(env, changed, tree, w, path);
    var fid, caller := w.t.files[path].id, PyStr(rel.fromSymbol);
    var k :| 0 <= k < |ChunksIn(env, tree, path)| && ChunksIn(env, tree, path)[k].symbol == caller;
    var c := RowOfChunk(w.rows, fid, k);
    assert Named(c, Some(fid), caller);
    LookupMeaning(w.rows, Some(fid), caller);
    var to := Target(w.rows, fid, rel.target);
    var e := EdgeRow(LastScoped(w.rows, fid, caller).value, to, rel.kind, if to.Some? then None else Some(rel.target));
    OneEdgeMeaning(w.rows, fid, rel, e);
    IndexedEdgeIsStored(env, changed, tree, t, w, u, path, rel, e);
    RunEdgeRecords(env, changed, tree, t, w, u, path, rel, e);
  }

  lemma IndexedEdgeIsStored(env: Env, changed: set<string>, tree: Tree, t: Tables, w: Run, u: Tables, path: string, rel: Relationship,
                            e: EdgeRow)
    requires Outcome(env, changed, tree, t, w, u) && Reached(env, changed, tree, path) && path in w.t.files
    requires Eligible(env, tree, path) && rel in RelationshipsOf(env, tree, path)
    requires EdgeFor(e, w.rows, w.t.files[path].id, rel)
    ensures e in u.edges
  {
    var spec := SpecOfFile(env, tree, w.t, path);
    var k :| 0 <= k < |spec.relationships| && spec.relationships[k] == rel;
    assert EdgeOfSpec(e, w.rows, spec);
    assert NewEdge(env, changed, tree, w, path, e);
    assert SomeNewEdge(env, changed, tree, w, e);
  }

  lemma RunEdgeRecords(env: Env, changed: set<string>, tree: Tree, t: Tables, w: Run, u: Tables, path: string, rel: Relationship,
                       e: EdgeRow)
    requires Outcome(env, changed, tree, t, w, u) && path in w.t.files && EdgeFor(e, w.rows, w.t.files[path].id, rel)
    ensures Records(u, path, rel, e)
  {
    var fid := w.t.files[path].id;
    var k :| IsLast(w.rows, Some(fid), PyStr(rel.fromSymbol), k) && w.rows[k].id == e.from;
    assert IsRow(u, path, w.rows[k], e.from, PyStr(rel.fromSymbol));
    if e.to.Some? {
      var scope: Option<nat> := if Defined(w.rows, Some(fid), rel.target) then Some(fid) else None;
      var i :| IsLast(w.rows, scope, rel.target, i) && w.rows[i].id == e.to.value;
      NamedRowIsInAFile(u, w.rows[i]);
    }
  }

  /** No file on which the run acts defines the target. */
  ghost predicate NoReachedDefines(env: Env, changed: set<string>, tree: Tree, name: string) {
    forall q :: Reached(env, changed, tree, q) ==> !DefinesName(env, tree, q, name)
  }

  lemma OnlyExternalEdges(env: Env, changed: set<string>, tree: Tree, t: Tables, w: Run, u: Tables, path: string, rel: Relationship,
                          e: EdgeRow)
    requires Outcome(env, changed, tree, t, w, u) && Reached(env, changed, tree, path)
    requires forall q :: Reached(env, changed, tree, q) ==> ExactAt(env, tree, u, q)
    requires NoReachedDefines(env, changed, tree, rel.target) && e in u.edges && Records(u, path, rel, e)
    ensures e.to.None?
  {
    if e.to.Some? {
      var q :| At(u, q, e.to.value, rel.target);
      EndsAgree(env, changed, tree, t, w, u, e, path, PyStr(rel.fromSymbol), q, rel.target);
      RowsDefineNames(env, tree, u, q, e.to.value, rel.target);
    }
  }

  /**
   A call from a changed file into an untouched one becomes external: a full run of the new
   commit stores an internal edge for it, and all that the incremental run stores is external.
   */
  lemma CallOutOfChangedFileIsExternal(env: Env, oracle: Embedding.Oracle, calls: nat, changed: set<string>, t: Tables,
                                       sha: string, walk: seq<string>, life: nat, full: Tables, path: string, rel: Relationship,
                                       e: EdgeRow)
    requires Inv(env, t) && IsWalk(env, env.treeOf(sha), walk)
    requires IndexRun(env, oracle, calls, Incremental(changed), t, sha, walk, life).alive
    requires FullyIndexed(env, env.treeOf(sha), full) && Reached(env, changed, env.treeOf(sha), path)
    requires Resolvable(env, env.treeOf(sha), path, rel) && NoReachedDefines(env, changed, env.treeOf(sha), rel.target)
    ensures SomeInternalEdgeRecords(full, path, rel)
    ensures var u := IndexRun(env, oracle, calls, Incremental(changed), t, sha, walk, life).t;
            SomeEdgeRecords(u, path, rel) && (e in u.edges && Records(u, path, rel, e) ==> e.to.None?)
  {
    var tree, w := env.treeOf(sha), Walked(env, Incremental(changed), t, calls, sha, walk, life);
    var u := IndexRun(env, oracle, calls, Incremental(changed), t, sha, walk, life).t;
    FullIndexRecords(env, tree, full, path, rel);
    FinishedRun(env, oracle, calls, changed, t, sha, walk, life);
    IndexedFileRecords(env, changed, tree, t, w, u, path, rel);
    forall q | Reached(env, changed, tree, q) ensures ExactAt(env, tree, u, q) {
      IncrementalExactAt(env, oracle, calls, changed, t, sha, walk, life, q);
    }
    if e in u.edges && Records(u, path, rel, e) {
      OnlyExternalEdges(env, changed, tree, t, w, u, path, rel, e);
    }
  }
}
