/**
 The file graph of backend/src/modules/repositories/services/graph.service.ts: chunks and
 relationships grouped by normalised path, so that the rows that one file has under two
 spellings of its path become one node.
 */
module FileGraph {
  import opened Sequences
  import opened Wrappers

  datatype RelationshipType = CALLS | IMPORTS | EXTENDS | IMPLEMENTS

  datatype Relationship = Relationship(kind: RelationshipType, fromFileId: string, toFileId: Option<string>)
  datatype ChunkRow = ChunkRow(fileId: string, filePath: string, chunkId: string, symbol: string)

  datatype Counts = Counts(calls: nat, imports: nat, extends_: nat, implements: nat)
  datatype Node = Node(id: string, path: string, symbolCount: nat)
  datatype Edge = Edge(source: string, target: string, counts: Counts)

  const EMPTY_COUNTS := Counts(0, 0, 0, 0)

  function Count(c: Counts, kind: RelationshipType): nat {
    match kind
    case CALLS => c.calls
    case IMPORTS => c.imports
    case EXTENDS => c.extends_
    case IMPLEMENTS => c.implements
  }

  function Bump(c: Counts, kind: RelationshipType): (r: Counts)
    ensures forall k :: Count(r, k) == Count(c, k) + if k == kind then 1 else 0
  {
    match kind
    case CALLS => c.(calls := c.calls + 1)
    case IMPORTS => c.(imports := c.imports + 1)
    case EXTENDS => c.(extends_ := c.extends_ + 1)
    case IMPLEMENTS => c.(implements := c.implements + 1)
  }

  /** normalizePath */
  function Normalize(path: string): string {
    seq(|path|, i requires 0 <= i < |path| => if path[i] == '\\' then '/' else path[i])
  }

  // ----- grouping by path -----

  /** The chunks among the first n whose path normalises to path. */
  function Group(chunks: seq<ChunkRow>, n: nat, path: string): seq<ChunkRow>
    requires n <= |chunks|
  {
    if n == 0 then []
    else
      var before := Group(chunks, n - 1, path);
      if Normalize(chunks[n - 1].filePath) == path then before + [chunks[n - 1]] else before
  }

  /** The keys of chunksByPath, in insertion order. */
  function Paths(chunks: seq<ChunkRow>, n: nat): seq<string>
    requires n <= |chunks|
  {
    if n == 0 then []
    else
      var before := Paths(chunks, n - 1);
      var path := Normalize(chunks[n - 1].filePath);
      if path in before then before else before + [path]
  }

  predicate Distinct(s: seq<string>) {
    forall i, j :: 0 <= i < j < |s| ==> s[i] != s[j]
  }

  lemma {:induction false} PathsMeaning(chunks: seq<ChunkRow>, n: nat, path: string)
    requires n <= |chunks|
    ensures Distinct(Paths(chunks, n))
    ensures path in Paths(chunks, n) <==> Group(chunks, n, path) != []
  {
    if n == 0 {
    } else {
      PathsMeaning(chunks, n - 1, path);
    }
  }

  lemma {:induction false} GroupMember(chunks: seq<ChunkRow>, n: nat, path: string, c: ChunkRow)
    requires n <= |chunks|
    ensures c in Group(chunks, n, path) <==> c in chunks[..n] && Normalize(c.filePath) == path
  {
    if n == 0 {
    } else {
      GroupMember(chunks, n - 1, path, c);
      assert chunks[..n] == chunks[..n - 1] + [chunks[n - 1]];
    }
  }

  // ----- canonical file ids -----

  /** a sorts strictly before b, character by character. */
  predicate Less(a: string, b: string) {
    if b == [] then false
    else if a == [] then true
    else if a[0] != b[0] then a[0] < b[0]
    else Less(a[1..], b[1..])
  }

  lemma {:induction false} LessIsTotal(a: string, b: string)
    ensures Less(a, b) || Less(b, a) || a == b
    ensures !(Less(a, b) && Less(b, a)) && !Less(a, a)
  {
    if a != [] && b != [] && a[0] == b[0] {
      LessIsTotal(a[1..], b[1..]);
      assert a == [a[0]] + a[1..] && b == [b[0]] + b[1..];
    }
    LessIsIrreflexive(a);
  }

  lemma {:induction false} LessIsIrreflexive(a: string)
    ensures !Less(a, a)
  {
    if a == [] {
    } else {
      LessIsIrreflexive(a[1..]);
    }
  }

  lemma {:induction false} LessIsTransitive(a: string, b: string, c: string)
    requires Less(a, b) && Less(b, c)
    ensures Less(a, c)
  {
    if a != [] && a[0] == b[0] && b[0] == c[0] {
      LessIsTransitive(a[1..], b[1..], c[1..]);
    }
  }

  /** fileChunks.map((c) => c.fileId).sort()[0] */
  function Smallest(group: seq<ChunkRow>, n: nat): string
    requires 0 < n <= |group|
  {
    if n == 1 then group[0].fileId
    else
      var before := Smallest(group, n - 1);
      if Less(group[n - 1].fileId, before) then group[n - 1].fileId else before
  }

  lemma {:induction false} SmallestMeaning(group: seq<ChunkRow>, n: nat)
    requires 0 < n <= |group|
    ensures exists i :: 0 <= i < n && group[i].fileId == Smallest(group, n)
    ensures forall i :: 0 <= i < n ==> !Less(group[i].fileId, Smallest(group, n))
  {
    LessIsTotal(group[0].fileId, group[0].fileId);
    if n > 1 {
      SmallestMeaning(group, n - 1);
      var before, last := Smallest(group, n - 1), group[n - 1].fileId;
      LessIsTotal(last, last);
      forall i | 0 <= i < n - 1 ensures !Less(group[i].fileId, Smallest(group, n)) {
        if Less(last, before) && Less(group[i].fileId, last) {
          LessIsTransitive(group[i].fileId, last, before);
        }
      }
    }
  }

  function SetAll(canon: map<string, string>, group: seq<ChunkRow>, n: nat, id: string): map<string, string>
    requires n <= |group|
  {
    if n == 0 then canon else SetAll(canon, group, n - 1, id)[group[n - 1].fileId := id]
  }

  /** canonicalFileIdByRawFileId after the first n groups. */
  function Canon(chunks: seq<ChunkRow>, n: nat): map<string, string>
    requires n <= |Paths(chunks, |chunks|)|
  {
    if n == 0 then map[]
    else
      var group := Group(chunks, |chunks|, Paths(chunks, |chunks|)[n - 1]);
      if group == [] then Canon(chunks, n - 1) else SetAll(Canon(chunks, n - 1), group, |group|, Smallest(group, |group|))
  }

  function Canonical(chunks: seq<ChunkRow>): map<string, string> {
    Canon(chunks, |Paths(chunks, |chunks|)|)
  }

  /** The schema: a file row has one path. */
  predicate OnePath(chunks: seq<ChunkRow>) {
    forall i, j :: 0 <= i < |chunks| && 0 <= j < |chunks| && chunks[i].fileId == chunks[j].fileId
                   ==> chunks[i].filePath == chunks[j].filePath
  }

  lemma {:induction false} SetAllMeaning(canon: map<string, string>, group: seq<ChunkRow>, n: nat, id: string, file: string)
    requires n <= |group|
    ensures var after := SetAll(canon, group, n, id);
            if exists i :: 0 <= i < n && group[i].fileId == file then file in after && after[file] == id
            else (file in after <==> file in canon) && (file in canon ==> after[file] == canon[file])
  {
    if n == 0 {
    } else {
      SetAllMeaning(canon, group, n - 1, id, file);
    }
  }

  ghost predicate HasFile(group: seq<ChunkRow>, file: string) {
    exists i :: 0 <= i < |group| && group[i].fileId == file
  }

  function GroupAt(chunks: seq<ChunkRow>, i: nat): seq<ChunkRow>
    requires i < |Paths(chunks, |chunks|)|
  {
    Group(chunks, |chunks|, Paths(chunks, |chunks|)[i])
  }

  lemma GroupAtIsNonEmpty(chunks: seq<ChunkRow>, i: nat)
    requires i < |Paths(chunks, |chunks|)|
    ensures GroupAt(chunks, i) != []
  {
    PathsMeaning(chunks, |chunks|, Paths(chunks, |chunks|)[i]);
    assert Paths(chunks, |chunks|)[i] in Paths(chunks, |chunks|);
  }

  /** Every file of the first n groups has a canonical id. */
  lemma {:induction false} CanonCovers(chunks: seq<ChunkRow>, n: nat, file: string)
    requires n <= |Paths(chunks, |chunks|)|
    ensures file in Canon(chunks, n) <==> exists i :: 0 <= i < n && HasFile(GroupAt(chunks, i), file)
  {
    if n == 0 {
    } else {
      CanonCovers(chunks, n - 1, file);
      var group := GroupAt(chunks, n - 1);
      GroupAtIsNonEmpty(chunks, n - 1);
      SetAllMeaning(Canon(chunks, n - 1), group, |group|, Smallest(group, |group|), file);
      assert HasFile(group, file) <==> exists i :: 0 <= i < |group| && group[i].fileId == file;
    }
  }

  /** With one path per file, a file is in one group only. */
  lemma FileIsInOneGroup(chunks: seq<ChunkRow>, i: nat, j: nat, file: string)
    requires OnePath(chunks) && i < |Paths(chunks, |chunks|)| && j < |Paths(chunks, |chunks|)|
    requires HasFile(GroupAt(chunks, i), file) && HasFile(GroupAt(chunks, j), file)
    ensures i == j
  {
    var paths, x, y := Paths(chunks, |chunks|), GroupAt(chunks, i), GroupAt(chunks, j);
    var a :| 0 <= a < |x| && x[a].fileId == file;
    var b :| 0 <= b < |y| && y[b].fileId == file;
    assert chunks[..|chunks|] == chunks;
    GroupMember(chunks, |chunks|, paths[i], x[a]);
    GroupMember(chunks, |chunks|, paths[j], y[b]);
    var k :| 0 <= k < |chunks| && chunks[k] == x[a];
    var l :| 0 <= l < |chunks| && chunks[l] == y[b];
    assert chunks[k].filePath == chunks[l].filePath;
    assert paths[i] == paths[j];
    PathsMeaning(chunks, |chunks|, paths[i]);
  }

  /** The canonical id of a file is the smallest id of the files with its normalised path. */
  lemma {:induction false} CanonIsSmallest(chunks: seq<ChunkRow>, n: nat, i: nat, file: string)
    requires OnePath(chunks) && i < n <= |Paths(chunks, |chunks|)| && HasFile(GroupAt(chunks, i), file)
    ensures GroupAt(chunks, i) != []
    ensures file in Canon(chunks, n) && Canon(chunks, n)[file] == Smallest(GroupAt(chunks, i), |GroupAt(chunks, i)|)
  {
    var group := GroupAt(chunks, n - 1);
    GroupAtIsNonEmpty(chunks, n - 1);
    SetAllMeaning(Canon(chunks, n - 1), group, |group|, Smallest(group, |group|), file);
    if i < n - 1 {
      if HasFile(group, file) {
        FileIsInOneGroup(chunks, i, n - 1, file);
      }
      CanonIsSmallest(chunks, n - 1, i, file);
    }
  }

  // ----- nodes -----

  function NodeAt(chunks: seq<ChunkRow>, i: nat): Node
    requires i < |Paths(chunks, |chunks|)|
  {
    GroupAtIsNonEmpty(chunks, i);
    FirstFileIsKnown(chunks, i);
    Node(Canonical(chunks)[GroupAt(chunks, i)[0].fileId], Paths(chunks, |chunks|)[i], |GroupAt(chunks, i)|)
  }

  lemma FirstFileIsKnown(chunks: seq<ChunkRow>, i: nat)
    requires i < |Paths(chunks, |chunks|)| && GroupAt(chunks, i) != []
    ensures GroupAt(chunks, i)[0].fileId in Canonical(chunks)
  {
    assert HasFile(GroupAt(chunks, i), GroupAt(chunks, i)[0].fileId);
    CanonCovers(chunks, |Paths(chunks, |chunks|)|, GroupAt(chunks, i)[0].fileId);
  }

  function Nodes(chunks: seq<ChunkRow>): seq<Node> {
    seq(|Paths(chunks, |chunks|)|, i requires 0 <= i < |Paths(chunks, |chunks|)| => NodeAt(chunks, i))
  }

  /** Two spellings of a path are one node, two paths are two, and the id is the smallest of the files'. */
  lemma NodesAreDistinct(chunks: seq<ChunkRow>, i: nat, j: nat)
    requires OnePath(chunks) && i < j < |Nodes(chunks)|
    ensures Nodes(chunks)[i].path != Nodes(chunks)[j].path && Nodes(chunks)[i].id != Nodes(chunks)[j].id
  {
    PathsMeaning(chunks, |chunks|, "");
    NodeIdIsSmallest(chunks, i);
    NodeIdIsSmallest(chunks, j);
    if Nodes(chunks)[i].id == Nodes(chunks)[j].id {
      FileIsInOneGroup(chunks, i, j, Nodes(chunks)[i].id);
    }
  }

  lemma NodeIdIsSmallest(chunks: seq<ChunkRow>, i: nat)
    requires OnePath(chunks) && i < |Nodes(chunks)|
    ensures HasFile(GroupAt(chunks, i), Nodes(chunks)[i].id)
    ensures forall k :: 0 <= k < |GroupAt(chunks, i)| ==> !Less(GroupAt(chunks, i)[k].fileId, Nodes(chunks)[i].id)
  {
    var group := GroupAt(chunks, i);
    GroupAtIsNonEmpty(chunks, i);
    assert HasFile(group, group[0].fileId);
    CanonIsSmallest(chunks, |Paths(chunks, |chunks|)|, i, group[0].fileId);
    SmallestMeaning(group, |group|);
  }

  /** Every chunk belongs to the node of its normalised path, and its file to that node's id. */
  lemma ChunkHasItsNode(chunks: seq<ChunkRow>, c: ChunkRow) returns (i: nat)
    requires OnePath(chunks) && c in chunks
    ensures i < |Nodes(chunks)| && Nodes(chunks)[i].path == Normalize(c.filePath) && c in GroupAt(chunks, i)
    ensures c.fileId in Canonical(chunks) && Canonical(chunks)[c.fileId] == Nodes(chunks)[i].id
  {
    var paths, path := Paths(chunks, |chunks|), Normalize(c.filePath);
    assert chunks[..|chunks|] == chunks;
    GroupMember(chunks, |chunks|, path, c);
    PathsMeaning(chunks, |chunks|, path);
    i :| i < |paths| && paths[i] == path;
    var group := GroupAt(chunks, i);
    var k :| 0 <= k < |group| && group[k] == c;
    assert HasFile(group, c.fileId) && HasFile(group, group[0].fileId);
    CanonIsSmallest(chunks, |paths|, i, c.fileId);
    CanonIsSmallest(chunks, |paths|, i, group[0].fileId);
  }

  /** The sum of the group sizes of the first k paths, over the first n chunks. */
  function Sizes(chunks: seq<ChunkRow>, n: nat, paths: seq<string>, k: nat): nat
    requires n <= |chunks| && k <= |paths|
  {
    if k == 0 then 0 else Sizes(chunks, n, paths, k - 1) + |Group(chunks, n, paths[k - 1])|
  }

  lemma {:induction false} SizesStep(chunks: seq<ChunkRow>, n: nat, paths: seq<string>, k: nat)
    requires n < |chunks| && k <= |paths| && Distinct(paths)
    ensures Sizes(chunks, n + 1, paths, k)
            == Sizes(chunks, n, paths, k) + if Normalize(chunks[n].filePath) in paths[..k] then 1 else 0
  {
    if k == 0 {
    } else {
      SizesStep(chunks, n, paths, k - 1);
      assert paths[..k] == paths[..k - 1] + [paths[k - 1]];
    }
  }

  lemma {:induction false} EmptySizes(chunks: seq<ChunkRow>, paths: seq<string>, k: nat)
    requires k <= |paths|
    ensures Sizes(chunks, 0, paths, k) == 0
  {
    if k == 0 {
    } else {
      EmptySizes(chunks, paths, k - 1);
    }
  }

  lemma {:induction false} SizesCountChunks(chunks: seq<ChunkRow>, n: nat)
    requires n <= |chunks|
    ensures Sizes(chunks, n, Paths(chunks, |chunks|), |Paths(chunks, |chunks|)|) == n
  {
    var paths := Paths(chunks, |chunks|);
    if n == 0 {
      EmptySizes(chunks, paths, |paths|);
    } else {
      SizesCountChunks(chunks, n - 1);
      var c := chunks[n - 1];
      PathsMeaning(chunks, |chunks|, Normalize(c.filePath));
      assert chunks[..|chunks|] == chunks && c in chunks;
      GroupMember(chunks, |chunks|, Normalize(c.filePath), c);
      assert paths[..|paths|] == paths;
      SizesStep(chunks, n - 1, paths, |paths|);
    }
  }

  function SymbolCounts(nodes: seq<Node>, k: nat): nat
    requires k <= |nodes|
  {
    if k == 0 then 0 else SymbolCounts(nodes, k - 1) + nodes[k - 1].symbolCount
  }

  lemma {:induction false} SymbolCountsAreSizes(chunks: seq<ChunkRow>, k: nat)
    requires k <= |Nodes(chunks)|
    ensures SymbolCounts(Nodes(chunks), k) == Sizes(chunks, |chunks|, Paths(chunks, |chunks|), k)
  {
    if k == 0 {
    } else {
      SymbolCountsAreSizes(chunks, k - 1);
    }
  }

  /** The nodes' symbol counts add up to the number of chunks. */
  lemma SymbolsAreConserved(chunks: seq<ChunkRow>)
    ensures SymbolCounts(Nodes(chunks), |Nodes(chunks)|) == |chunks|
  {
    SymbolCountsAreSizes(chunks, |Nodes(chunks)|);
    SizesCountChunks(chunks, |chunks|);
  }

  // ----- edges -----

  /** edgeByFilePair: its keys in insertion order, and its values. */
  datatype EdgeMap = EdgeMap(keys: seq<string>, edges: map<string, Edge>)

  function End(canon: map<string, string>, id: string): string {
    if id in canon then canon[id] else id
  }

  /** The ends of the edge that a relationship is drawn on, if it is drawn at all. */
  function Drawn(canon: map<string, string>, r: Relationship): Option<(string, string)> {
    if r.toFileId in {None, Some("")} then None
    else
      var from, to := End(canon, r.fromFileId), End(canon, r.toFileId.value);
      if from == to then None else Some((from, to))
  }

  function Key(from: string, to: string): string {
    from + "->" + to
  }

  function AddEdge(m: EdgeMap, kind: RelationshipType, from: string, to: string): EdgeMap {
    var key := Key(from, to);
    var edge := if key in m.edges then m.edges[key] else Edge(from, to, EMPTY_COUNTS);
    EdgeMap(if key in m.edges then m.keys else m.keys + [key],
            m.edges[key := edge.(counts := Bump(edge.counts, kind))])
  }

  function Edges(rels: seq<Relationship>, n: nat, canon: map<string, string>): EdgeMap
    requires n <= |rels|
  {
    if n == 0 then EdgeMap([], map[])
    else
      var before := Edges(rels, n - 1, canon);
      match Drawn(canon, rels[n - 1])
      case None => before
      case Some(ends) => AddEdge(before, rels[n - 1].kind, ends.0, ends.1)
  }

  /** Relationships of one type drawn on one ordered pair. */
  function Number(rels: seq<Relationship>, n: nat, canon: map<string, string>, ends: (string, string), kind: RelationshipType): nat
    requires n <= |rels|
  {
    if n == 0 then 0
    else Number(rels, n - 1, canon, ends, kind)
         + if Drawn(canon, rels[n - 1]) == Some(ends) && rels[n - 1].kind == kind then 1 else 0
  }

  /** Relationships of one type that stay inside the repository and leave their file. */
  function Crossing(rels: seq<Relationship>, n: nat, canon: map<string, string>, kind: RelationshipType): nat
    requires n <= |rels|
  {
    if n == 0 then 0
    else Crossing(rels, n - 1, canon, kind)
         + if Drawn(canon, rels[n - 1]).Some? && rels[n - 1].kind == kind then 1 else 0
  }

  predicate IsPlain(id: string) {
    '>' !in id
  }

  /** The ids of the schema are uuids, which hold no '>'. */
  predicate PlainSources(rels: seq<Relationship>, canon: map<string, string>) {
    forall i :: 0 <= i < |rels| && Drawn(canon, rels[i]).Some? ==> IsPlain(Drawn(canon, rels[i]).value.0)
  }

  /** Then the text key of an ordered pair is unambiguous. */
  lemma KeyIsInjective(from: string, to: string, from': string, to': string)
    requires IsPlain(from) && IsPlain(from') && Key(from, to) == Key(from', to')
    ensures from == from' && to == to'
  {
    var key := Key(from, to);
    assert key[|from| + 1] == '>' && key[|from'| + 1] == '>';
    SourcesAgree(from, to, from', to');
    SourcesAgree(from', to', from, to);
    assert from == key[..|from|] && from' == key[..|from'|];
    assert to == key[|from| + 2..] && to' == key[|from'| + 2..];
  }

  lemma SourcesAgree(from: string, to: string, from': string, to': string)
    requires IsPlain(from') && Key(from, to) == Key(from', to')
    ensures |from'| <= |from|
  {
    var key := Key(from', to');
    assert key[|from| + 1] == '>' && key[|from'|] == '-';
    assert forall i :: 0 <= i < |from'| ==> key[i] == from'[i];
  }

  ghost predicate KeysMatch(m: EdgeMap) {
    Distinct(m.keys) && (forall key :: key in m.keys <==> key in m.edges)
  }

  lemma {:induction false} KeysAlwaysMatch(rels: seq<Relationship>, n: nat, canon: map<string, string>)
    requires n <= |rels|
    ensures KeysMatch(Edges(rels, n, canon))
  {
    if n == 0 {
    } else {
      KeysAlwaysMatch(rels, n - 1, canon);
    }
  }

  /** What the edge map holds: keys once each, and the pair that each key spells. */
  ghost predicate Sound(m: EdgeMap) {
    && KeysMatch(m)
    && (forall key :: key in m.edges ==> SoundEdge(key, m.edges[key]))
  }

  predicate SoundEdge(key: string, edge: Edge) {
    key == Key(edge.source, edge.target) && edge.source != edge.target && IsPlain(edge.source)
  }

  lemma {:induction false} EdgesAreSound(rels: seq<Relationship>, n: nat, canon: map<string, string>)
    requires n <= |rels| && PlainSources(rels, canon)
    ensures Sound(Edges(rels, n, canon))
  {
    if n == 0 {
    } else {
      EdgesAreSound(rels, n - 1, canon);
      if Drawn(canon, rels[n - 1]).Some? {
        AddEdgeIsSound(Edges(rels, n - 1, canon), rels[n - 1].kind,
                       Drawn(canon, rels[n - 1]).value.0, Drawn(canon, rels[n - 1]).value.1);
      }
    }
  }

  lemma AddEdgeIsSound(m: EdgeMap, kind: RelationshipType, from: string, to: string)
    requires Sound(m) && IsPlain(from) && from != to
    ensures Sound(AddEdge(m, kind, from, to))
  {
    var after := AddEdge(m, kind, from, to);
    forall key | key in after.edges ensures SoundEdge(key, after.edges[key]) {
      assert key in m.edges ==> SoundEdge(key, m.edges[key]);
    }
  }

  /** No node has an edge to itself, and an ordered pair of nodes has at most one edge. */
  lemma OneEdgePerPair(rels: seq<Relationship>, canon: map<string, string>, i: nat, j: nat)
    requires PlainSources(rels, canon) && i < j < |Edges(rels, |rels|, canon).keys|
    ensures var m := Edges(rels, |rels|, canon);
            && m.keys[i] in m.edges && m.keys[j] in m.edges
            && m.edges[m.keys[i]].source != m.edges[m.keys[i]].target
            && (m.edges[m.keys[i]].source, m.edges[m.keys[i]].target) != (m.edges[m.keys[j]].source, m.edges[m.keys[j]].target)
  {
    var m := Edges(rels, |rels|, canon);
    EdgesAreSound(rels, |rels|, canon);
    assert m.keys[i] in m.keys && m.keys[j] in m.keys;
    assert SoundEdge(m.keys[i], m.edges[m.keys[i]]) && SoundEdge(m.keys[j], m.edges[m.keys[j]]);
  }

  /** The count that an edge map shows for an ordered pair. */
  function Shown(m: EdgeMap, ends: (string, string), kind: RelationshipType): nat {
    var key := Key(ends.0, ends.1);
    if key in m.edges then Count(m.edges[key].counts, kind) else 0
  }

  /** Each pair's counts are those of the relationships drawn on it, type by type. */
  lemma {:induction false} PairIsCounted(rels: seq<Relationship>, n: nat, canon: map<string, string>, ends: (string, string),
                                         kind: RelationshipType)
    requires n <= |rels| && PlainSources(rels, canon) && IsPlain(ends.0)
    ensures Shown(Edges(rels, n, canon), ends, kind) == Number(rels, n, canon, ends, kind)
  {
    if n == 0 {
    } else {
      PairIsCounted(rels, n - 1, canon, ends, kind);
      match Drawn(canon, rels[n - 1])
      case None => {}
      case Some(drawn) => {
        if Key(drawn.0, drawn.1) == Key(ends.0, ends.1) {
          KeyIsInjective(drawn.0, drawn.1, ends.0, ends.1);
        }
      }
    }
  }

  /** A pair has an edge if and only if some relationship is drawn on it. */
  lemma {:induction false} EdgeIff(rels: seq<Relationship>, n: nat, canon: map<string, string>, ends: (string, string))
    requires n <= |rels| && PlainSources(rels, canon) && IsPlain(ends.0)
    ensures Key(ends.0, ends.1) in Edges(rels, n, canon).edges
            <==> exists i :: 0 <= i < n && Drawn(canon, rels[i]) == Some(ends)
  {
    if n == 0 {
    } else {
      EdgeIff(rels, n - 1, canon, ends);
      match Drawn(canon, rels[n - 1])
      case None => {}
      case Some(drawn) => {
        if Key(drawn.0, drawn.1) == Key(ends.0, ends.1) {
          KeyIsInjective(drawn.0, drawn.1, ends.0, ends.1);
        }
      }
    }
  }

  function Sum(keys: seq<string>, edges: map<string, Edge>, n: nat, kind: RelationshipType): nat
    requires n <= |keys|
  {
    if n == 0 then 0
    else Sum(keys, edges, n - 1, kind) + if keys[n - 1] in edges then Count(edges[keys[n - 1]].counts, kind) else 0
  }

  lemma {:induction false} SumAfterBump(keys: seq<string>, edges: map<string, Edge>, n: nat, key: string, edge: Edge,
                                        kind: RelationshipType)
    requires n <= |keys| && Distinct(keys)
    ensures Sum(keys, edges[key := edge], n, kind) + (if key in edges && key in keys[..n] then Count(edges[key].counts, kind) else 0)
            == Sum(keys, edges, n, kind) + if key in keys[..n] then Count(edge.counts, kind) else 0
  {
    if n == 0 {
    } else {
      SumAfterBump(keys, edges, n - 1, key, edge, kind);
      assert keys[..n] == keys[..n - 1] + [keys[n - 1]];
    }
  }

  lemma {:induction false} SumOfMoreKeys(keys: seq<string>, more: seq<string>, edges: map<string, Edge>, n: nat, kind: RelationshipType)
    requires n <= |keys|
    ensures Sum(keys + more, edges, n, kind) == Sum(keys, edges, n, kind)
  {
    if n == 0 {
    } else {
      SumOfMoreKeys(keys, more, edges, n - 1, kind);
    }
  }

  /** For every type the counts of all edges add up to the relationships that cross from one file to another. */
  lemma {:induction false} CrossingsAreConserved(rels: seq<Relationship>, n: nat, canon: map<string, string>, kind: RelationshipType)
    requires n <= |rels|
    ensures var m := Edges(rels, n, canon);
            Sum(m.keys, m.edges, |m.keys|, kind) == Crossing(rels, n, canon, kind)
  {
    if n == 0 {
    } else {
      CrossingsAreConserved(rels, n - 1, canon, kind);
      KeysAlwaysMatch(rels, n - 1, canon);
      match Drawn(canon, rels[n - 1])
      case None => {}
      case Some(ends) => {
        AddEdgeSum(Edges(rels, n - 1, canon), rels[n - 1].kind, ends.0, ends.1, kind);
      }
    }
  }

  lemma AddEdgeSum(m: EdgeMap, added: RelationshipType, from: string, to: string, kind: RelationshipType)
    requires KeysMatch(m)
    ensures var after := AddEdge(m, added, from, to);
            Sum(after.keys, after.edges, |after.keys|, kind) == Sum(m.keys, m.edges, |m.keys|, kind) + if added == kind then 1 else 0
  {
    var key, after := Key(from, to), AddEdge(m, added, from, to);
    SumAfterBump(m.keys, m.edges, |m.keys|, key, after.edges[key], kind);
    assert m.keys[..|m.keys|] == m.keys;
    SumOfMoreKeys(m.keys, [key], after.edges, |m.keys|, kind);
  }

  // ----- the graph without its maps -----

  predicate IsSlash(c: char) {
    c == '/' || c == '\\'
  }

  /** The two spellings differ in their slashes only. */
  predicate SamePath(a: string, b: string) {
    |a| == |b| && forall i :: 0 <= i < |a| ==> a[i] == b[i] || (IsSlash(a[i]) && IsSlash(b[i]))
  }

  lemma NormalizeMeaning(a: string, b: string)
    ensures '\\' !in Normalize(a) && SamePath(a, Normalize(a))
    ensures Normalize(a) == Normalize(b) <==> SamePath(a, b)
    ensures '\\' !in b ==> Normalize(b) == b
  {
    var x, y := Normalize(a), Normalize(b);
    if SamePath(a, b) {
      forall i | 0 <= i < |x| ensures x[i] == y[i] {}
    }
    if x == y {
      forall i | 0 <= i < |a| ensures a[i] == b[i] || (IsSlash(a[i]) && IsSlash(b[i])) { assert x[i] == y[i]; }
    }
  }

  /** a is a proper prefix of b, or has the smaller character where they first differ. */
  predicate Precedes(a: string, b: string, k: nat) {
    k <= |a| && k < |b| && a[..k] == b[..k] && (k == |a| || a[k] < b[k])
  }

  lemma {:induction false} LessIff(a: string, b: string)
    ensures Less(a, b) <==> exists k: nat :: Precedes(a, b, k)
  {
    if b == [] {
    } else if a == [] {
      assert Precedes(a, b, 0);
    } else if a[0] != b[0] {
      if a[0] < b[0] { assert Precedes(a, b, 0); }
      forall k: nat | Precedes(a, b, k) ensures a[0] < b[0] {
        if k > 0 { assert a[..k][0] == b[..k][0]; }
      }
    } else {
      LessIff(a[1..], b[1..]);
      if k: nat :| Precedes(a[1..], b[1..], k) {
        assert a[..k + 1] == [a[0]] + a[1..][..k] && b[..k + 1] == [b[0]] + b[1..][..k];
        assert Precedes(a, b, k + 1);
      }
      if k: nat :| Precedes(a, b, k) {
        if k > 0 {
          assert a[1..][..k - 1] == a[..k][1..] && b[1..][..k - 1] == b[..k][1..];
          assert Precedes(a[1..], b[1..], k - 1);
        }
      }
    }
  }

  function OnPath(path: string): ChunkRow -> bool {
    (c: ChunkRow) => SamePath(c.filePath, path)
  }

  /** The node of a path: all chunks of the path are counted, and its id is the smallest of their files' ids. */
  ghost predicate IsNode(chunks: seq<ChunkRow>, node: Node) {
    && '\\' !in node.path && node.symbolCount == Rank(chunks, OnPath(node.path), |chunks|)
    && (exists c :: c in chunks && SamePath(c.filePath, node.path) && c.fileId == node.id)
    && (forall c, k: nat :: c in chunks && SamePath(c.filePath, node.path) ==> !Precedes(c.fileId, node.id, k))
  }

  lemma {:induction false} GroupSize(chunks: seq<ChunkRow>, n: nat, path: string)
    requires n <= |chunks| && '\\' !in path
    ensures |Group(chunks, n, path)| == Rank(chunks, OnPath(path), n)
  {
    for k := 0 to n
      invariant |Group(chunks, k, path)| == Rank(chunks, OnPath(path), k)
    {
      NormalizeMeaning(chunks[k].filePath, path);
    }
  }

  lemma GroupMeaning(chunks: seq<ChunkRow>, path: string, c: ChunkRow)
    requires '\\' !in path
    ensures c in Group(chunks, |chunks|, path) <==> c in chunks && SamePath(c.filePath, path)
  {
    GroupMember(chunks, |chunks|, path, c);
    assert chunks[..|chunks|] == chunks;
    NormalizeMeaning(c.filePath, path);
  }

  lemma PathsAreNormal(chunks: seq<ChunkRow>, i: nat)
    requires i < |Paths(chunks, |chunks|)|
    ensures '\\' !in Paths(chunks, |chunks|)[i]
  {
    GroupAtIsNonEmpty(chunks, i);
    var c := GroupAt(chunks, i)[0];
    GroupMember(chunks, |chunks|, Paths(chunks, |chunks|)[i], c);
    NormalizeMeaning(c.filePath, "");
  }

  lemma NodeMeaning(chunks: seq<ChunkRow>, i: nat)
    requires OnePath(chunks) && i < |Nodes(chunks)|
    ensures IsNode(chunks, Nodes(chunks)[i])
  {
    var node, group := Nodes(chunks)[i], GroupAt(chunks, i);
    PathsAreNormal(chunks, i);
    NodeIdIsSmallest(chunks, i);
    GroupSize(chunks, |chunks|, node.path);
    var k :| 0 <= k < |group| && group[k].fileId == node.id;
    assert group[k] in group;
    GroupMeaning(chunks, node.path, group[k]);
    forall c, k: nat | c in chunks && SamePath(c.filePath, node.path) ensures !Precedes(c.fileId, node.id, k) {
      GroupMeaning(chunks, node.path, c);
      LessIff(c.fileId, node.id);
    }
  }

  /** One node for each path that some chunk has, up to the spelling of slashes. */
  ghost predicate AreNodes(chunks: seq<ChunkRow>, nodes: seq<Node>) {
    && (forall i, j :: 0 <= i < j < |nodes| ==> nodes[i].path != nodes[j].path && nodes[i].id != nodes[j].id)
    && (forall node :: node in nodes ==> IsNode(chunks, node))
    && (forall c :: c in chunks ==> HasNode(nodes, c))
  }

  ghost predicate HasNode(nodes: seq<Node>, c: ChunkRow) {
    exists node :: node in nodes && SamePath(c.filePath, node.path)
  }

  lemma NodesMeaning(chunks: seq<ChunkRow>)
    requires OnePath(chunks)
    ensures AreNodes(chunks, Nodes(chunks))
  {
    var nodes := Nodes(chunks);
    forall i, j | 0 <= i < j < |nodes| ensures nodes[i].path != nodes[j].path && nodes[i].id != nodes[j].id {
      NodesAreDistinct(chunks, i, j);
    }
    forall node | node in nodes ensures IsNode(chunks, node) {
      var i :| 0 <= i < |nodes| && nodes[i] == node;
      NodeMeaning(chunks, i);
    }
    forall c | c in chunks ensures HasNode(nodes, c) {
      var i := ChunkHasItsNode(chunks, c);
      NormalizeMeaning(c.filePath, "");
      assert nodes[i] in nodes;
    }
  }

  // ----- the ends of an edge -----

  predicate HasChunk(chunks: seq<ChunkRow>, file: string) {
    exists c :: c in chunks && c.fileId == file
  }

  /** The node that holds the file has this id; a file without a chunk stands for itself. */
  predicate EndsAt(chunks: seq<ChunkRow>, nodes: seq<Node>, file: string, id: string) {
    if HasChunk(chunks, file) then
      exists c, node :: c in chunks && c.fileId == file && node in nodes && SamePath(c.filePath, node.path) && node.id == id
    else id == file
  }

  lemma NodeOfPath(chunks: seq<ChunkRow>, c: ChunkRow, node: Node)
    requires OnePath(chunks) && c in chunks && node in Nodes(chunks) && SamePath(c.filePath, node.path)
    ensures c.fileId in Canonical(chunks) && Canonical(chunks)[c.fileId] == node.id
  {
    var nodes := Nodes(chunks);
    var i := ChunkHasItsNode(chunks, c);
    var j :| 0 <= j < |nodes| && nodes[j] == node;
    PathsAreNormal(chunks, j);
    NormalizeMeaning(c.filePath, node.path);
    assert nodes[i].path == nodes[j].path;
    if i < j { NodesAreDistinct(chunks, i, j); } else if j < i { NodesAreDistinct(chunks, j, i); }
  }

  lemma EndIff(chunks: seq<ChunkRow>, file: string, id: string)
    requires OnePath(chunks)
    ensures End(Canonical(chunks), file) == id <==> EndsAt(chunks, Nodes(chunks), file, id)
  {
    if HasChunk(chunks, file) {
      var c :| c in chunks && c.fileId == file;
      var i := ChunkHasItsNode(chunks, c);
      NormalizeMeaning(c.filePath, "");
      assert Nodes(chunks)[i] in Nodes(chunks);
      forall d, node | d in chunks && d.fileId == file && node in Nodes(chunks) && SamePath(d.filePath, node.path)
        ensures End(Canonical(chunks), file) == node.id
      {
        NodeOfPath(chunks, d, node);
      }
    } else {
      UnknownFile(chunks, file);
    }
  }

  lemma UnknownFile(chunks: seq<ChunkRow>, file: string)
    requires !HasChunk(chunks, file)
    ensures file !in Canonical(chunks)
  {
    assert chunks[..|chunks|] == chunks;
    CanonCovers(chunks, |Paths(chunks, |chunks|)|, file);
    if file in Canonical(chunks) {
      var i: nat :| i < |Paths(chunks, |chunks|)| && HasFile(GroupAt(chunks, i), file);
      var k :| 0 <= k < |GroupAt(chunks, i)| && GroupAt(chunks, i)[k].fileId == file;
      GroupMember(chunks, |chunks|, Paths(chunks, |chunks|)[i], GroupAt(chunks, i)[k]);
    }
  }

  /** The relationship leads from the node with id s to another one with id t, inside the repository. */
  predicate Leads(chunks: seq<ChunkRow>, nodes: seq<Node>, r: Relationship, s: string, t: string) {
    r.toFileId.Some? && r.toFileId.value != "" && s != t
    && EndsAt(chunks, nodes, r.fromFileId, s) && EndsAt(chunks, nodes, r.toFileId.value, t)
  }

  lemma DrawnIff(chunks: seq<ChunkRow>, r: Relationship, s: string, t: string)
    requires OnePath(chunks)
    ensures Drawn(Canonical(chunks), r) == Some((s, t)) <==> Leads(chunks, Nodes(chunks), r, s, t)
  {
    EndIff(chunks, r.fromFileId, s);
    if r.toFileId.Some? { EndIff(chunks, r.toFileId.value, t); }
  }

  function LeadsAs(chunks: seq<ChunkRow>, nodes: seq<Node>, s: string, t: string, kind: RelationshipType): Relationship -> bool {
    (r: Relationship) => r.kind == kind && Leads(chunks, nodes, r, s, t)
  }

  lemma {:induction false} NumberIsRank(rels: seq<Relationship>, n: nat, chunks: seq<ChunkRow>, s: string, t: string,
                                        kind: RelationshipType)
    requires OnePath(chunks) && n <= |rels|
    ensures Number(rels, n, Canonical(chunks), (s, t), kind) == Rank(rels, LeadsAs(chunks, Nodes(chunks), s, t, kind), n)
  {
    for k := 0 to n
      invariant Number(rels, k, Canonical(chunks), (s, t), kind) == Rank(rels, LeadsAs(chunks, Nodes(chunks), s, t, kind), k)
    {
      DrawnIff(chunks, rels[k], s, t);
    }
  }

  /** Some pair of different nodes is led across. */
  ghost predicate Crosses(chunks: seq<ChunkRow>, nodes: seq<Node>, r: Relationship) {
    exists s, t :: Leads(chunks, nodes, r, s, t)
  }

  ghost function CrossesAs(chunks: seq<ChunkRow>, nodes: seq<Node>, kind: RelationshipType): Relationship -> bool {
    (r: Relationship) => r.kind == kind && Crosses(chunks, nodes, r)
  }

  lemma {:induction false} CrossingIsRank(rels: seq<Relationship>, n: nat, chunks: seq<ChunkRow>, kind: RelationshipType)
    requires OnePath(chunks) && n <= |rels|
    ensures Crossing(rels, n, Canonical(chunks), kind) == Rank(rels, CrossesAs(chunks, Nodes(chunks), kind), n)
  {
    for k := 0 to n
      invariant Crossing(rels, k, Canonical(chunks), kind) == Rank(rels, CrossesAs(chunks, Nodes(chunks), kind), k)
    {
      CrossesIff(chunks, rels[k]);
    }
  }

  lemma CrossesIff(chunks: seq<ChunkRow>, r: Relationship)
    requires OnePath(chunks)
    ensures Drawn(Canonical(chunks), r).Some? <==> Crosses(chunks, Nodes(chunks), r)
  {
    if Drawn(Canonical(chunks), r).Some? {
      var ends := Drawn(Canonical(chunks), r).value;
      DrawnIff(chunks, r, ends.0, ends.1);
    }
    if s, t :| Leads(chunks, Nodes(chunks), r, s, t) {
      DrawnIff(chunks, r, s, t);
    }
  }

  // ----- the edges as a list -----

  /** The ids of the schema are uuids, which hold no '>'. */
  predicate PlainIds(rels: seq<Relationship>, chunks: seq<ChunkRow>) {
    (forall c :: c in chunks ==> IsPlain(c.fileId)) && (forall r :: r in rels ==> IsPlain(r.fromFileId))
  }

  lemma EndIsPlain(chunks: seq<ChunkRow>, file: string, id: string)
    requires OnePath(chunks) && IsPlain(file) && (forall c :: c in chunks ==> IsPlain(c.fileId))
    requires EndsAt(chunks, Nodes(chunks), file, id)
    ensures IsPlain(id)
  {
    if HasChunk(chunks, file) {
      var c, node :| c in chunks && c.fileId == file && node in Nodes(chunks) && SamePath(c.filePath, node.path) && node.id == id;
      NodesMeaning(chunks);
      assert IsNode(chunks, node);
    }
  }

  lemma SourcesArePlain(rels: seq<Relationship>, chunks: seq<ChunkRow>)
    requires OnePath(chunks) && PlainIds(rels, chunks)
    ensures PlainSources(rels, Canonical(chunks))
  {
    forall i | 0 <= i < |rels| && Drawn(Canonical(chunks), rels[i]).Some?
      ensures IsPlain(Drawn(Canonical(chunks), rels[i]).value.0)
    {
      var ends := Drawn(Canonical(chunks), rels[i]).value;
      DrawnIff(chunks, rels[i], ends.0, ends.1);
      assert rels[i] in rels;
      EndIsPlain(chunks, rels[i].fromFileId, ends.0);
    }
  }

  /** The values of the map in insertion order. */
  function Values(m: EdgeMap): seq<Edge>
    requires KeysMatch(m)
  {
    seq(|m.keys|, i requires 0 <= i < |m.keys| => InKeys(m, i))
  }

  function InKeys(m: EdgeMap, i: nat): Edge
    requires KeysMatch(m) && i < |m.keys|
  {
    assert m.keys[i] in m.keys;
    m.edges[m.keys[i]]
  }

  function EdgeList(rels: seq<Relationship>, canon: map<string, string>): seq<Edge> {
    KeysAlwaysMatch(rels, |rels|, canon);
    Values(Edges(rels, |rels|, canon))
  }

  ghost predicate HasEdge(edges: seq<Edge>, s: string, t: string) {
    exists e :: e in edges && e.source == s && e.target == t
  }

  ghost predicate SomeLeads(rels: seq<Relationship>, chunks: seq<ChunkRow>, nodes: seq<Node>, s: string, t: string) {
    exists r :: r in rels && Leads(chunks, nodes, r, s, t)
  }

  /** The edge counts the relationships that lead from its source to its target, type by type. */
  ghost predicate CountsRight(rels: seq<Relationship>, chunks: seq<ChunkRow>, nodes: seq<Node>, e: Edge) {
    e.counts == Counts(Rank(rels, LeadsAs(chunks, nodes, e.source, e.target, CALLS), |rels|),
                       Rank(rels, LeadsAs(chunks, nodes, e.source, e.target, IMPORTS), |rels|),
                       Rank(rels, LeadsAs(chunks, nodes, e.source, e.target, EXTENDS), |rels|),
                       Rank(rels, LeadsAs(chunks, nodes, e.source, e.target, IMPLEMENTS), |rels|))
  }

  function SumOf(edges: seq<Edge>, n: nat, kind: RelationshipType): nat
    requires n <= |edges|
  {
    if n == 0 then 0
    else
      var c := edges[n - 1].counts;
      SumOf(edges, n - 1, kind) + match kind
                                  case CALLS => c.calls
                                  case IMPORTS => c.imports
                                  case EXTENDS => c.extends_
                                  case IMPLEMENTS => c.implements
  }

  /**
   What the graph is: a pair of node ids has an edge if and only if some relationship leads
   from the one to the other, one edge only, with the number of those relationships of each
   type; and for each type the counts of all edges add up to the relationships that cross.
   */
  ghost predicate AreEdges(rels: seq<Relationship>, chunks: seq<ChunkRow>, nodes: seq<Node>, edges: seq<Edge>) {
    && (forall i, j :: 0 <= i < j < |edges| ==> (edges[i].source, edges[i].target) != (edges[j].source, edges[j].target))
    && (forall s, t :: HasEdge(edges, s, t) <==> SomeLeads(rels, chunks, nodes, s, t))
    && (forall e :: e in edges ==> CountsRight(rels, chunks, nodes, e))
    && (forall kind :: SumOf(edges, |edges|, kind) == Rank(rels, CrossesAs(chunks, nodes, kind), |rels|))
  }

  lemma EdgeExistsIff(rels: seq<Relationship>, chunks: seq<ChunkRow>, s: string, t: string)
    requires OnePath(chunks) && PlainIds(rels, chunks)
    ensures HasEdge(EdgeList(rels, Canonical(chunks)), s, t) <==> SomeLeads(rels, chunks, Nodes(chunks), s, t)
  {
    var canon := Canonical(chunks);
    SourcesArePlain(rels, chunks);
    ListedIff(rels, canon, s, t);
    if IsPlain(s) {
      EdgeIff(rels, |rels|, canon, (s, t));
      if i :| 0 <= i < |rels| && Drawn(canon, rels[i]) == Some((s, t)) {
        DrawnIff(chunks, rels[i], s, t);
        assert rels[i] in rels;
      }
      if r :| r in rels && Leads(chunks, Nodes(chunks), r, s, t) {
        DrawnIff(chunks, r, s, t);
        var i :| 0 <= i < |rels| && rels[i] == r;
      }
    } else if r :| r in rels && Leads(chunks, Nodes(chunks), r, s, t) {
      EndIsPlain(chunks, r.fromFileId, s);
    }
  }

  lemma ListedIff(rels: seq<Relationship>, canon: map<string, string>, s: string, t: string)
    requires PlainSources(rels, canon)
    ensures HasEdge(EdgeList(rels, canon), s, t) <==> IsPlain(s) && Key(s, t) in Edges(rels, |rels|, canon).edges
  {
    var m, list := Edges(rels, |rels|, canon), EdgeList(rels, canon);
    EdgesAreSound(rels, |rels|, canon);
    if e :| e in list && e.source == s && e.target == t {
      var i :| 0 <= i < |list| && list[i] == e;
      assert m.keys[i] in m.keys && SoundEdge(m.keys[i], e);
    }
    if IsPlain(s) && Key(s, t) in m.edges {
      var key := Key(s, t);
      assert key in m.keys && SoundEdge(key, m.edges[key]);
      KeyIsInjective(s, t, m.edges[key].source, m.edges[key].target);
      var i :| 0 <= i < |m.keys| && m.keys[i] == key;
      assert list[i] == m.edges[key];
    }
  }

  lemma ListedCounts(rels: seq<Relationship>, chunks: seq<ChunkRow>, e: Edge)
    requires OnePath(chunks) && PlainIds(rels, chunks) && e in EdgeList(rels, Canonical(chunks))
    ensures CountsRight(rels, chunks, Nodes(chunks), e)
  {
    var canon := Canonical(chunks);
    var m, list := Edges(rels, |rels|, canon), EdgeList(rels, canon);
    SourcesArePlain(rels, chunks);
    EdgesAreSound(rels, |rels|, canon);
    var i :| 0 <= i < |list| && list[i] == e;
    assert m.keys[i] in m.keys && SoundEdge(m.keys[i], e);
    CountOfKind(rels, chunks, e, CALLS);
    CountOfKind(rels, chunks, e, IMPORTS);
    CountOfKind(rels, chunks, e, EXTENDS);
    CountOfKind(rels, chunks, e, IMPLEMENTS);
  }

  lemma CountOfKind(rels: seq<Relationship>, chunks: seq<ChunkRow>, e: Edge, kind: RelationshipType)
    requires OnePath(chunks) && PlainSources(rels, Canonical(chunks)) && IsPlain(e.source)
    requires var m := Edges(rels, |rels|, Canonical(chunks)); Key(e.source, e.target) in m.edges && m.edges[Key(e.source, e.target)] == e
    ensures Count(e.counts, kind) == Rank(rels, LeadsAs(chunks, Nodes(chunks), e.source, e.target, kind), |rels|)
  {
    PairIsCounted(rels, |rels|, Canonical(chunks), (e.source, e.target), kind);
    NumberIsRank(rels, |rels|, chunks, e.source, e.target, kind);
  }

  lemma {:induction false} SumIsSumOf(m: EdgeMap, n: nat, kind: RelationshipType)
    requires KeysMatch(m) && n <= |m.keys|
    ensures Sum(m.keys, m.edges, n, kind) == SumOf(Values(m), n, kind)
  {
    for k := 0 to n
      invariant Sum(m.keys, m.edges, k, kind) == SumOf(Values(m), k, kind)
    {
      assert m.keys[k] in m.keys;
    }
  }

  lemma EdgesMeaning(rels: seq<Relationship>, chunks: seq<ChunkRow>)
    requires OnePath(chunks) && PlainIds(rels, chunks)
    ensures AreEdges(rels, chunks, Nodes(chunks), EdgeList(rels, Canonical(chunks)))
  {
    var canon := Canonical(chunks);
    var m, list := Edges(rels, |rels|, canon), EdgeList(rels, canon);
    SourcesArePlain(rels, chunks);
    forall i, j | 0 <= i < j < |list| ensures (list[i].source, list[i].target) != (list[j].source, list[j].target) {
      OneEdgePerPair(rels, canon, i, j);
    }
    forall s, t ensures HasEdge(list, s, t) <==> SomeLeads(rels, chunks, Nodes(chunks), s, t) {
      EdgeExistsIff(rels, chunks, s, t);
    }
    forall e | e in list ensures CountsRight(rels, chunks, Nodes(chunks), e) {
      ListedCounts(rels, chunks, e);
    }
    forall kind ensures SumOf(list, |list|, kind) == Rank(rels, CrossesAs(chunks, Nodes(chunks), kind), |rels|) {
      KeysAlwaysMatch(rels, |rels|, canon);
      CrossingsAreConserved(rels, |rels|, canon, kind);
      SumIsSumOf(m, |m.keys|, kind);
      CrossingIsRank(rels, |rels|, chunks, kind);
    }
  }

  // ----- the code -----

  method GroupByPath(chunks: seq<ChunkRow>) returns (paths: seq<string>, chunksByPath: map<string, seq<ChunkRow>>)
    ensures paths == Paths(chunks, |chunks|)
    ensures forall path :: path in chunksByPath <==> path in paths
    ensures forall path :: path in chunksByPath ==> chunksByPath[path] == Group(chunks, |chunks|, path)
  {
    paths, chunksByPath := [], map[];
    for n := 0 to |chunks|
      invariant paths == Paths(chunks, n)
      invariant forall path :: path in chunksByPath <==> path in paths
      invariant forall path :: path in chunksByPath ==> chunksByPath[path] == Group(chunks, n, path)
      invariant forall path :: path !in chunksByPath ==> Group(chunks, n, path) == []
    {
      var key := Normalize(chunks[n].filePath);
      var list := if key in chunksByPath then chunksByPath[key] else [];
      if key !in chunksByPath {
        paths := paths + [key];
      }
      chunksByPath := chunksByPath[key := list + [chunks[n]]];
    }
  }

  method SmallestFileId(group: seq<ChunkRow>) returns (id: string)
    requires group != []
    ensures id == Smallest(group, |group|)
  {
    id := group[0].fileId;
    for n := 1 to |group|
      invariant id == Smallest(group, n)
    {
      if Less(group[n].fileId, id) {
        id := group[n].fileId;
      }
    }
  }

  method CanonicalIds(chunks: seq<ChunkRow>, paths: seq<string>, chunksByPath: map<string, seq<ChunkRow>>)
    returns (canon: map<string, string>)
    requires paths == Paths(chunks, |chunks|) && forall i :: 0 <= i < |paths| ==> paths[i] in chunksByPath
    requires forall path :: path in chunksByPath ==> chunksByPath[path] == Group(chunks, |chunks|, path)
    ensures canon == Canonical(chunks)
  {
    canon := map[];
    for n := 0 to |paths|
      invariant canon == Canon(chunks, n)
    {
      var group := chunksByPath[paths[n]];
      GroupAtIsNonEmpty(chunks, n);
      var id := SmallestFileId(group);
      ghost var before := canon;
      for k := 0 to |group|
        invariant canon == SetAll(before, group, k, id)
      {
        canon := canon[group[k].fileId := id];
      }
    }
  }

  method DrawEdges(rels: seq<Relationship>, canon: map<string, string>) returns (m: EdgeMap)
    ensures m == Edges(rels, |rels|, canon)
  {
    var keys: seq<string>, edges: map<string, Edge> := [], map[];
    for n := 0 to |rels|
      invariant EdgeMap(keys, edges) == Edges(rels, n, canon)
    {
      var r := rels[n];
      if r.toFileId.None? || r.toFileId.value == "" {
        continue;
      }
      var from := if r.fromFileId in canon then canon[r.fromFileId] else r.fromFileId;
      var to := if r.toFileId.value in canon then canon[r.toFileId.value] else r.toFileId.value;
      if from == to {
        continue;
      }
      var key := Key(from, to);
      var edge := if key in edges then edges[key] else Edge(from, to, EMPTY_COUNTS);
      if key !in edges {
        keys := keys + [key];
      }
      edges := edges[key := edge.(counts := Bump(edge.counts, r.kind))];
    }
    m := EdgeMap(keys, edges);
  }

  /** aggregateFileGraph without the symbol ranking. */
  method AggregateFileGraph(rels: seq<Relationship>, chunks: seq<ChunkRow>) returns (nodes: seq<Node>, edges: seq<Edge>)
    ensures nodes == Nodes(chunks) && edges == EdgeList(rels, Canonical(chunks))
    ensures OnePath(chunks) ==> AreNodes(chunks, nodes)
    ensures OnePath(chunks) && PlainIds(rels, chunks) ==> AreEdges(rels, chunks, nodes, edges)
  {
    var paths, chunksByPath := GroupByPath(chunks);
    var canon := CanonicalIds(chunks, paths, chunksByPath);
    nodes := [];
    for i := 0 to |paths|
      invariant nodes == Nodes(chunks)[..i]
    {
      var group := chunksByPath[paths[i]];
      GroupAtIsNonEmpty(chunks, i);
      FirstFileIsKnown(chunks, i);
      TakeNext(Nodes(chunks), i);
      nodes := nodes + [Node(canon[group[0].fileId], paths[i], |group|)];
    }
    var edgeByFilePair := DrawEdges(rels, canon);
    KeysAlwaysMatch(rels, |rels|, canon);
    edges := Values(edgeByFilePair);
    if OnePath(chunks) {
      NodesMeaning(chunks);
      if PlainIds(rels, chunks) { EdgesMeaning(rels, chunks); }
    }
  }
}
