/**
 The tables of one repository's index as a value, and the statements that the two indexing
 runs execute on them (worker/src/indexing/full_index.py, incremental_index.py).

 Ids stand for uuid4 strings: `nextId` is larger than every id handed out so far.
 Rows of a table are kept in insertion order.
 */
module IndexTables {
  import opened Wrappers
  import opened SourceChunks
  import opened Sequences
  import Embedding

  datatype Status = PENDING | CLONING | PARSING | CHUNKING | EMBEDDING | STORING | INDEXED | FAILED

  datatype FileRow = FileRow(id: nat, language: string, contentHash: string, size: nat, sha: string)
  datatype ChunkRow = ChunkRow(id: nat, fileId: nat, chunk: Chunk, language: string,
                               contentHash: string, modelVersion: string)
  datatype EdgeRow = EdgeRow(from: nat, to: Option<nat>, kind: RelationKind, external: Option<string>)
  datatype RepoRow = RepoRow(status: Status, currentSha: Option<string>, filesIndexed: nat, chunksIndexed: nat)

  /** `files` is keyed by its unique column `path`. */
  datatype Tables = Tables(
    files: map<string, FileRow>, chunks: seq<ChunkRow>, edges: seq<EdgeRow>,
    embeddings: Embedding.Store, repo: RepoRow, nextId: nat)

  /** The tables of a repository that has just been connected; the store of embeddings is that of all repositories. */
  function NewRepository(store: Embedding.Store): Tables {
    Tables(map[], [], [], store, RepoRow(PENDING, None, 0, 0), 0)
  }

  // ----- deletes and their cascades -----

  function KeepChunks(rows: seq<ChunkRow>, gone: set<nat>): seq<ChunkRow> {
    if rows == [] then []
    else if rows[0].fileId in gone then KeepChunks(rows[1..], gone)
    else [rows[0]] + KeepChunks(rows[1..], gone)
  }

  function RemovedIds(rows: seq<ChunkRow>, gone: set<nat>): set<nat> {
    set c | c in rows && c.fileId in gone :: c.id
  }

  predicate Touches(e: EdgeRow, ids: set<nat>) {
    e.from in ids || (e.to.Some? && e.to.value in ids)
  }

  function KeepEdges(edges: seq<EdgeRow>, ids: set<nat>): seq<EdgeRow> {
    if edges == [] then []
    else if Touches(edges[0], ids) then KeepEdges(edges[1..], ids)
    else [edges[0]] + KeepEdges(edges[1..], ids)
  }

  /** DELETE FROM chunks WHERE file_id IN gone, with the cascade to both ends of an edge. */
  function DeleteChunks(t: Tables, gone: set<nat>): Tables {
    t.(chunks := KeepChunks(t.chunks, gone), edges := KeepEdges(t.edges, RemovedIds(t.chunks, gone)))
  }

  function FileIds(t: Tables, paths: set<string>): set<nat> {
    set p | p in paths && p in t.files :: t.files[p].id
  }

  /** DELETE FROM files WHERE path IN paths, with the cascade to chunks and edges. */
  function DeleteFiles(t: Tables, paths: set<string>): Tables {
    DeleteChunks(t, FileIds(t, paths)).(files := t.files - paths)
  }

  function StalePaths(t: Tables, sha: string): set<string> {
    set p | p in t.files && t.files[p].sha != sha
  }

  // ----- what the foreign keys and the run logic keep -----

  function Ids(rows: seq<ChunkRow>): set<nat> {
    set c | c in rows :: c.id
  }

  /** Chunks of one file in insertion order. */
  function ChunksOf(rows: seq<ChunkRow>, fileId: nat): seq<Chunk> {
    if rows == [] then []
    else if rows[0].fileId == fileId then [rows[0].chunk] + ChunksOf(rows[1..], fileId)
    else ChunksOf(rows[1..], fileId)
  }

  predicate EdgeOk(e: EdgeRow, ids: set<nat>) {
    e.from in ids && (e.to.Some? ==> e.to.value in ids) && (e.to.Some? <==> e.external.None?)
  }

  /** The primary key of the chunks table. */
  ghost predicate UniqueIds(rows: seq<ChunkRow>) {
    forall c, d :: c in rows && d in rows && c.id == d.id ==> c == d
  }

  ghost predicate Valid(t: Tables) {
    && (forall p :: p in t.files ==> t.files[p].id < t.nextId)
    && (forall p, q :: p in t.files && q in t.files && p != q ==> t.files[p].id != t.files[q].id)
    && (forall c :: c in t.chunks ==> c.id < t.nextId) && UniqueIds(t.chunks)
    && (forall c :: c in t.chunks ==> HasFile(t, c.fileId))
    && (forall c :: c in t.chunks ==> (c.contentHash, c.modelVersion) in t.embeddings)
    && (forall e :: e in t.edges ==> EdgeOk(e, Ids(t.chunks)))
  }

  ghost predicate HasFile(t: Tables, fileId: nat) {
    exists p :: p in t.files && t.files[p].id == fileId
  }

  lemma {:induction false} KeepChunksMembers(rows: seq<ChunkRow>, gone: set<nat>)
    ensures forall c :: c in KeepChunks(rows, gone) <==> c in rows && c.fileId !in gone
  {
    if rows == [] {
    } else {
      KeepChunksMembers(rows[1..], gone);
      assert rows == [rows[0]] + rows[1..];
    }
  }

  lemma {:induction false} KeepChunksOfFile(rows: seq<ChunkRow>, gone: set<nat>, fileId: nat)
    ensures ChunksOf(KeepChunks(rows, gone), fileId) == if fileId in gone then [] else ChunksOf(rows, fileId)
  {
    if rows == [] {
    } else {
      KeepChunksOfFile(rows[1..], gone, fileId);
      assert ([rows[0]] + KeepChunks(rows[1..], gone))[1..] == KeepChunks(rows[1..], gone);
    }
  }

  lemma {:induction false} ChunksOfAppend(a: seq<ChunkRow>, b: seq<ChunkRow>, fileId: nat)
    ensures ChunksOf(a + b, fileId) == ChunksOf(a, fileId) + ChunksOf(b, fileId)
  {
    if a == [] {
      assert a + b == b;
    } else {
      ChunksOfAppend(a[1..], b, fileId);
      assert (a + b)[1..] == a[1..] + b;
    }
  }

  lemma {:induction false} NoChunksOf(rows: seq<ChunkRow>, fileId: nat)
    ensures ChunksOf(rows, fileId) == [] <==> forall c :: c in rows ==> c.fileId != fileId
  {
    if rows == [] {
    } else {
      NoChunksOf(rows[1..], fileId);
      assert rows == [rows[0]] + rows[1..];
    }
  }

  lemma {:induction false} KeepChunksAppend(a: seq<ChunkRow>, b: seq<ChunkRow>, gone: set<nat>)
    ensures KeepChunks(a + b, gone) == KeepChunks(a, gone) + KeepChunks(b, gone)
  {
    if a == [] {
      assert a + b == b;
    } else {
      KeepChunksAppend(a[1..], b, gone);
      TailOfSum(a, b);
      Associates([a[0]], KeepChunks(a[1..], gone), KeepChunks(b, gone));
    }
  }

  lemma {:induction false} KeepAllOrNone(rows: seq<ChunkRow>, gone: set<nat>)
    ensures (forall c :: c in rows ==> c.fileId in gone) ==> KeepChunks(rows, gone) == []
    ensures (forall c :: c in rows ==> c.fileId !in gone) ==> KeepChunks(rows, gone) == rows
  {
    if rows == [] {
    } else {
      assert rows == [rows[0]] + rows[1..];
      assert forall c :: c in rows[1..] ==> c in rows;
      KeepAllOrNone(rows[1..], gone);
    }
  }

  lemma {:induction false} KeepEdgesMembers(edges: seq<EdgeRow>, ids: set<nat>)
    ensures forall e :: e in KeepEdges(edges, ids) <==> e in edges && !Touches(e, ids)
  {
    if edges == [] {
    } else {
      KeepEdgesMembers(edges[1..], ids);
      assert edges == [edges[0]] + edges[1..];
    }
  }

  lemma {:induction false} KeepEdgesAppend(a: seq<EdgeRow>, b: seq<EdgeRow>, ids: set<nat>)
    ensures KeepEdges(a + b, ids) == KeepEdges(a, ids) + KeepEdges(b, ids)
  {
    if a == [] {
      assert a + b == b;
    } else {
      KeepEdgesAppend(a[1..], b, ids);
      assert (a + b)[0] == a[0] && (a + b)[1..] == a[1..] + b;
    }
  }

  lemma {:induction false} KeepEdgesAllOrNone(edges: seq<EdgeRow>, ids: set<nat>)
    ensures (forall e :: e in edges ==> Touches(e, ids)) ==> KeepEdges(edges, ids) == []
    ensures (forall e :: e in edges ==> !Touches(e, ids)) ==> KeepEdges(edges, ids) == edges
  {
    if edges == [] {
    } else {
      assert edges == [edges[0]] + edges[1..];
      assert forall e :: e in edges[1..] ==> e in edges;
      KeepEdgesAllOrNone(edges[1..], ids);
    }
  }

  /** A delete with its cascade leaves no dangling reference and touches no other file. */
  lemma DeleteFilesKeepsValid(t: Tables, paths: set<string>)
    requires Valid(t)
    ensures Valid(DeleteFiles(t, paths))
    ensures forall p :: p in DeleteFiles(t, paths).files <==> p in t.files && p !in paths
    ensures forall p :: p in t.files && p !in paths ==>
              ChunksOf(DeleteFiles(t, paths).chunks, t.files[p].id) == ChunksOf(t.chunks, t.files[p].id)
  {
    var gone := FileIds(t, paths);
    DeleteChunksKeepsReferences(t, gone);
    KeepChunksMembers(t.chunks, gone);
    var after := DeleteFiles(t, paths);
    forall c | c in after.chunks ensures HasFile(after, c.fileId) {
      var p :| p in t.files && t.files[p].id == c.fileId;
      assert p !in paths;
      assert p in after.files;
    }
    forall p | p in t.files && p !in paths
      ensures ChunksOf(after.chunks, t.files[p].id) == ChunksOf(t.chunks, t.files[p].id)
    {
      KeepChunksOfFile(t.chunks, gone, t.files[p].id);
    }
  }

  lemma DeleteChunksKeepsReferences(t: Tables, gone: set<nat>)
    requires Valid(t)
    ensures Valid(DeleteChunks(t, gone))
  {
    var after := DeleteChunks(t, gone);
    KeepChunksMembers(t.chunks, gone);
    KeepEdgesMembers(t.edges, RemovedIds(t.chunks, gone));
    forall e | e in after.edges ensures EdgeOk(e, Ids(after.chunks)) {
      assert EdgeOk(e, Ids(t.chunks));
    }
    forall c | c in after.chunks ensures HasFile(after, c.fileId) {
      assert HasFile(t, c.fileId);
    }
  }
}
