/**
 worker/src/parsing/symbol_relationships.py: the import and call walks, and the attribution
 of a call to a chunk by sorting the chunks once and scanning them for the call's line.
 */
module SymbolRelationships {
  import opened Wrappers
  import opened SourceChunks
  import opened SyntaxTree
  import opened StableSort
  import opened AstChunker

  // ----- attribution by line -----

  predicate Covers(chunk: Chunk, line: int) {
    chunk.startLine <= line <= chunk.endLine
  }

  function Span(chunk: Chunk): int {
    chunk.endLine - chunk.startLine
  }

  function Spans(chunks: seq<Chunk>): seq<real> {
    seq(|chunks|, i requires 0 <= i < |chunks| => Span(chunks[i]) as real)
  }

  /** chunks_sorted_by_size */
  function SortedBySize(chunks: seq<Chunk>): (r: seq<Chunk>)
    ensures |r| == |chunks|
  {
    var order := Order(Spans(chunks));
    seq(|chunks|, a requires 0 <= a < |chunks| => chunks[order[a]])
  }

  function FirstCovering(chunks: seq<Chunk>, line: int, from: nat): Option<Chunk>
    requires from <= |chunks|
    decreases |chunks| - from
  {
    if from == |chunks| then None
    else if Covers(chunks[from], line) then Some(chunks[from])
    else FirstCovering(chunks, line, from + 1)
  }

  /** The chunk that a line is attributed to. */
  function Attributed(chunks: seq<Chunk>, line: int): Option<Chunk> {
    FirstCovering(SortedBySize(chunks), line, 0)
  }

  function SymbolOf(chunk: Option<Chunk>): Option<string> {
    match chunk
    case Some(c) => Some(c.symbol)
    case None => None
  }

  /** _find_symbol_for_node */
  method FindSymbolForNode(node: Node, sorted: seq<Chunk>) returns (symbol: Option<string>)
    ensures symbol == SymbolOf(FirstCovering(sorted, node.startLine, 0))
  {
    var i := 0;
    while i < |sorted|
      invariant i <= |sorted|
      invariant FirstCovering(sorted, node.startLine, 0) == FirstCovering(sorted, node.startLine, i)
    {
      if Covers(sorted[i], node.startLine) {
        return Some(sorted[i].symbol);
      }
      i := i + 1;
    }
    symbol := None;
  }

  lemma {:induction false} FirstCoveringIs(chunks: seq<Chunk>, line: int, from: nat, a: nat)
    requires from <= a < |chunks| && Covers(chunks[a], line)
    requires forall b :: from <= b < a ==> !Covers(chunks[b], line)
    ensures FirstCovering(chunks, line, from) == Some(chunks[a])
    decreases a - from
  {
    if from < a {
      FirstCoveringIs(chunks, line, from + 1, a);
    }
  }

  lemma {:induction false} NoneCovering(chunks: seq<Chunk>, line: int, from: nat)
    requires from <= |chunks|
    requires forall b :: from <= b < |chunks| ==> !Covers(chunks[b], line)
    ensures FirstCovering(chunks, line, from) == None
    decreases |chunks| - from
  {
    if from < |chunks| {
      NoneCovering(chunks, line, from + 1);
    }
  }

  /** Chunk i covers the line, and every other chunk that does has a larger span, or the same span and a later place. */
  predicate IsLeast(chunks: seq<Chunk>, line: int, i: nat) {
    && i < |chunks| && Covers(chunks[i], line)
    && forall j :: 0 <= j < |chunks| && j != i && Covers(chunks[j], line) ==>
                     Span(chunks[i]) < Span(chunks[j]) || (Span(chunks[i]) == Span(chunks[j]) && i < j)
  }

  /** Scanning the sorted list finds the least covering chunk of the original one. */
  lemma AttributedIsLeast(chunks: seq<Chunk>, line: int, i: nat)
    requires IsLeast(chunks, line, i)
    ensures Attributed(chunks, line) == Some(chunks[i])
  {
    var keys, sorted := Spans(chunks), SortedBySize(chunks);
    var order := Order(keys);
    OrderAscends(keys);
    assert i in order;
    var a: nat :| a < |order| && order[a] == i;
    forall b | 0 <= b < a ensures !Covers(sorted[b], line) {
      assert Before(keys, order[b], order[a]);
      assert sorted[b] == chunks[order[b]];
    }
    FirstCoveringIs(sorted, line, 0, a);
  }

  /** The scan of the sorted list stops at the chunk that stands at place i of the original one. */
  ghost predicate StopsAt(chunks: seq<Chunk>, line: int, i: nat) {
    var order := Order(Spans(chunks));
    i < |chunks| && Covers(chunks[i], line)
    && exists a :: 0 <= a < |order| && order[a] == i && NoneCoversBefore(chunks, order, line, a)
  }

  ghost predicate NoneCoversBefore(chunks: seq<Chunk>, order: seq<nat>, line: int, a: int)
    requires InRange(order, |chunks|) && a <= |order|
  {
    forall b :: 0 <= b < a ==> !Covers(chunks[order[b]], line)
  }

  /** It stops exactly at the least covering chunk, and that one is the result. */
  lemma StopsAtIff(chunks: seq<Chunk>, line: int, i: nat)
    ensures StopsAt(chunks, line, i) <==> IsLeast(chunks, line, i)
    ensures StopsAt(chunks, line, i) ==> Attributed(chunks, line) == Some(chunks[i])
  {
    var keys := Spans(chunks);
    var order := Order(keys);
    OrderAscends(keys);
    if StopsAt(chunks, line, i) {
      var a :| 0 <= a < |order| && order[a] == i && NoneCoversBefore(chunks, order, line, a);
      forall j | 0 <= j < |chunks| && j != i && Covers(chunks[j], line) ensures Before(keys, i, j) {
        assert j in order;
        var b :| 0 <= b < |order| && order[b] == j;
        assert Before(keys, order[a], order[b]);
      }
    }
    if IsLeast(chunks, line, i) {
      AttributedIsLeast(chunks, line, i);
      assert i in order;
      var a :| 0 <= a < |order| && order[a] == i;
      forall b | 0 <= b < a ensures !Covers(chunks[order[b]], line) {
        assert Before(keys, order[b], order[a]);
      }
      assert NoneCoversBefore(chunks, order, line, a);
    }
  }

  lemma {:induction false} LeastExists(chunks: seq<Chunk>, line: int, n: nat) returns (i: nat)
    requires n <= |chunks| && exists j :: 0 <= j < n && Covers(chunks[j], line)
    ensures i < n && IsLeast(chunks[..n], line, i)
    decreases n
  {
    if exists j :: 0 <= j < n - 1 && Covers(chunks[j], line) {
      i := LeastExists(chunks, line, n - 1);
      assert forall j :: 0 <= j < n - 1 ==> chunks[..n - 1][j] == chunks[..n][j];
      if Covers(chunks[n - 1], line) && Span(chunks[n - 1]) < Span(chunks[i]) {
        i := n - 1;
      }
    } else {
      i := n - 1;
    }
  }

  /** A line that no chunk covers is attributed to none, and any other to the least covering chunk. */
  lemma AttributionMeaning(chunks: seq<Chunk>, line: int)
    ensures Attributed(chunks, line).None? <==> forall j :: 0 <= j < |chunks| ==> !Covers(chunks[j], line)
    ensures Attributed(chunks, line).Some? ==>
              exists i: nat :: IsLeast(chunks, line, i) && Attributed(chunks, line) == Some(chunks[i])
  {
    if exists j :: 0 <= j < |chunks| && Covers(chunks[j], line) {
      var i := LeastExists(chunks, line, |chunks|);
      assert chunks[..|chunks|] == chunks;
      AttributedIsLeast(chunks, line, i);
    } else {
      var order, sorted := Order(Spans(chunks)), SortedBySize(chunks);
      forall b | 0 <= b < |sorted| ensures !Covers(sorted[b], line) {
        assert sorted[b] == chunks[order[b]];
      }
      NoneCovering(sorted, line, 0);
    }
  }

  // ----- attribution against the tree -----

  /** Every chunk covering the line belongs to path's node or to one of its ancestors. */
  predicate OnlyAncestorsCover(language: Language, root: Node, path: Path, line: int) {
    forall j :: 0 <= j < |Visit([], root)| && ChunkCovers(language, Visit([], root)[j], line) ==> Visit([], root)[j] <= path
  }

  predicate ChunkCovers(language: Language, path: Path, line: int) {
    ChunkAt(language, path).Some? && Covers(ChunkAt(language, path).value, line)
  }

  /** path's enclosing chunk at depth k: the chunk of its k-th node from the root. */
  function Enclosing(language: Language, path: Path, k: nat): Option<Chunk> {
    if 0 < k <= |path| then ChunkAt(language, path[..k]) else None
  }

  ghost predicate IsInnermost(language: Language, path: Path, n: nat) {
    Enclosing(language, path, n).Some? && forall k: nat :: n < k ==> Enclosing(language, path, k).None?
  }

  predicate IsOutermostOfSpan(language: Language, path: Path, span: int, k: nat) {
    && Enclosing(language, path, k).Some? && Span(Enclosing(language, path, k).value) == span
    && forall m: nat :: m < k && Enclosing(language, path, m).Some? ==> Span(Enclosing(language, path, m).value) != span
  }

  predicate Contains(outer: Chunk, inner: Chunk, line: int) {
    outer.startLine <= inner.startLine <= line <= inner.endLine <= outer.endLine
  }

  /** Enclosing chunks contain one another, and the line of the call. */
  lemma EnclosingNest(language: Language, path: Path, m: nat, k: nat)
    requires path != [] && Descends(path) && WellFormed(path[0]) && m <= k
    requires Enclosing(language, path, m).Some? && Enclosing(language, path, k).Some?
    ensures Contains(Enclosing(language, path, m).value, Enclosing(language, path, k).value, path[|path| - 1].startLine)
  {
    LinesNest(path, m - 1, k - 1);
    LinesNest(path, k - 1, |path| - 1);
  }

  /** The enclosing chunk at depth k stands before chunk b, which is that of a deeper enclosing node. */
  lemma EnclosingStandsBefore(language: Language, root: Node, j: nat, k: nat, b: nat) returns (a: nat)
    requires j < |Visit([], root)| && 0 < k < |Visit([], root)[j]|
    requires ChunkAt(language, Visit([], root)[j]).Some? && ChunkAt(language, Visit([], root)[j][..k]).Some?
    requires b == |Collect(ChunksOf(language), Visit([], root), j)|
    ensures b < |Chunks(language, root)| && a < b
    ensures Chunks(language, root)[a] == ChunkAt(language, Visit([], root)[j][..k]).value
  {
    var f, paths := ChunksOf(language), Visit([], root);
    VisitDescends([], root, j);
    var i := AncestorComesFirst([], root, j, k);
    CollectKeepsOrder(f, paths, i, |paths|);
    CollectKeepsOrder(f, paths, j, |paths|);
    CollectKeepsOrder(f, paths, i, j);
    a := |Collect(f, paths, i)|;
  }

  lemma OwnChunkIsListed(language: Language, root: Node, j: nat)
    requires j < |Visit([], root)| && ChunkAt(language, Visit([], root)[j]).Some?
    ensures ChunkAt(language, Visit([], root)[j]).value in Chunks(language, root)
  {
    var f, paths := ChunksOf(language), Visit([], root);
    CollectKeepsOrder(f, paths, j, |paths|);
    assert Chunks(language, root)[|Collect(f, paths, j)|] == ChunkAt(language, paths[j]).value;
  }

  lemma EnclosingIsListed(language: Language, root: Node, s: nat, k: nat)
    requires s < |Visit([], root)| && Enclosing(language, Visit([], root)[s], k).Some?
    ensures Enclosing(language, Visit([], root)[s], k).value in Chunks(language, root)
  {
    var path := Visit([], root)[s];
    if k == |path| {
      assert path[..k] == path;
      OwnChunkIsListed(language, root, s);
    } else {
      var i := AncestorComesFirst([], root, s, k);
      OwnChunkIsListed(language, root, i);
    }
  }

  /** path is occurrence s of the tree, and its innermost enclosing chunk is at depth n. */
  ghost predicate EnclosedSite(language: Language, root: Node, s: nat, path: Path, n: nat) {
    && WellFormed(root) && s < |Visit([], root)| && path == Visit([], root)[s]
    && path != [] && path[0] == root && Descends(path)
    && IsInnermost(language, path, n)
  }

  /** And only its enclosing chunks cover its line. */
  ghost predicate CallSite(language: Language, root: Node, s: nat, path: Path, n: nat) {
    EnclosedSite(language, root, s, path, n) && OnlyAncestorsCover(language, root, path, path[|path| - 1].startLine)
  }

  // ----- exactly when a call goes to its innermost chunk -----

  /** Where the chunk of occurrence j stands in the file's list. */
  function Place(language: Language, root: Node, j: nat): nat
    requires j <= |Visit([], root)|
  {
    |Collect(ChunksOf(language), Visit([], root), j)|
  }

  lemma PlaceMeaning(language: Language, root: Node, j: nat)
    requires j < |Visit([], root)| && ChunkAt(language, Visit([], root)[j]).Some?
    ensures Place(language, root, j) < |Chunks(language, root)|
    ensures Chunks(language, root)[Place(language, root, j)] == ChunkAt(language, Visit([], root)[j]).value
  {
    CollectKeepsOrder(ChunksOf(language), Visit([], root), j, |Visit([], root)|);
  }

  lemma PlacesRise(language: Language, root: Node, j: nat, k: nat)
    requires j < k < |Visit([], root)| && ChunkAt(language, Visit([], root)[j]).Some?
    ensures Place(language, root, j) < Place(language, root, k)
  {
    CollectKeepsOrder(ChunksOf(language), Visit([], root), j, k);
  }

  lemma PlaceOrigin(language: Language, root: Node, i: nat) returns (j: nat)
    requires i < |Chunks(language, root)|
    ensures j < |Visit([], root)| && i == Place(language, root, j)
    ensures ChunkAt(language, Visit([], root)[j]) == Some(Chunks(language, root)[i])
  {
    j := CollectOrigin(ChunksOf(language), Visit([], root), |Visit([], root)|, i);
  }

  /** Occurrence k takes the line from occurrence j: its chunk covers the line too, and has fewer lines, or as many and comes first. */
  predicate Rivals(language: Language, root: Node, line: int, j: nat, k: nat)
    requires j < |Visit([], root)| && ChunkAt(language, Visit([], root)[j]).Some?
  {
    k < |Visit([], root)| && k != j && ChunkCovers(language, Visit([], root)[k], line) &&
    var mine, other := Span(ChunkAt(language, Visit([], root)[j]).value), Span(ChunkAt(language, Visit([], root)[k]).value);
    other < mine || (other == mine && k < j)
  }

  /** The scan stops at the chunk of a covering occurrence if and only if it has no rival. */
  lemma StopsUnlessRivalled(language: Language, root: Node, line: int, j: nat)
    requires j < |Visit([], root)| && ChunkCovers(language, Visit([], root)[j], line)
    ensures StopsAt(Chunks(language, root), line, Place(language, root, j))
            <==> forall k: nat :: !Rivals(language, root, line, j, k)
  {
    var chunks, i := Chunks(language, root), Place(language, root, j);
    PlaceMeaning(language, root, j);
    StopsAtIff(chunks, line, i);
    if IsLeast(chunks, line, i) {
      forall k: nat ensures !Rivals(language, root, line, j, k) {
        if Rivals(language, root, line, j, k) { RivalIsNotLater(language, root, line, j, k); }
      }
    }
    if forall k: nat :: !Rivals(language, root, line, j, k) {
      forall x | 0 <= x < |chunks| && x != i && Covers(chunks[x], line)
        ensures Span(chunks[i]) < Span(chunks[x]) || (Span(chunks[i]) == Span(chunks[x]) && i < x)
      {
        var k := PlaceOrigin(language, root, x);
        assert !Rivals(language, root, line, j, k);
        if j < k { PlacesRise(language, root, j, k); }
      }
    }
  }

  lemma RivalIsNotLater(language: Language, root: Node, line: int, j: nat, k: nat)
    requires j < |Visit([], root)| && ChunkCovers(language, Visit([], root)[j], line) && Rivals(language, root, line, j, k)
    ensures !IsLeast(Chunks(language, root), line, Place(language, root, j))
  {
    PlaceMeaning(language, root, j);
    PlaceMeaning(language, root, k);
    if k < j { PlacesRise(language, root, k, j); } else { PlacesRise(language, root, j, k); }
  }

  /** The innermost enclosing chunk is that of an occurrence not after the call. */
  lemma InnermostOccurrence(language: Language, root: Node, s: nat, path: Path, n: nat) returns (j: nat)
    requires EnclosedSite(language, root, s, path, n)
    ensures j <= s && Visit([], root)[j] == path[..n]
  {
    if n == |path| {
      assert path[..n] == path;
      j := s;
    } else {
      j := AncestorComesFirst([], root, s, n);
    }
  }

  /**
   Exactly when, for every call with an enclosing chunk: the scan stops at the innermost one
   if and only if no other chunk of the file covers the call's line with fewer lines, or with
   as many and an earlier place - be it an outer chunk, a sibling or one inside the call. Then
   the call has its name; and if it shares its name with no covering chunk, only then.
   */
  lemma InnermostIff(language: Language, root: Node, s: nat, path: Path, n: nat, j: nat)
    requires EnclosedSite(language, root, s, path, n) && j < |Visit([], root)| && Visit([], root)[j] == path[..n]
    ensures var chunks, line := Chunks(language, root), path[|path| - 1].startLine;
            var unrivalled := forall k: nat :: !Rivals(language, root, line, j, k);
            && (StopsAt(chunks, line, Place(language, root, j)) <==> unrivalled)
            && (unrivalled ==> Attributed(chunks, line) == Enclosing(language, path, n))
            && (OwnName(language, root, line, j) ==>
                  (SymbolOf(Attributed(chunks, line)) == SymbolOf(Enclosing(language, path, n)) <==> unrivalled))
  {
    var chunks, line := Chunks(language, root), path[|path| - 1].startLine;
    EnclosingNest(language, path, n, n);
    PlaceMeaning(language, root, j);
    StopsUnlessRivalled(language, root, line, j);
    StopsAtIff(chunks, line, Place(language, root, j));
    if OwnName(language, root, line, j) && SymbolOf(Attributed(chunks, line)) == SymbolOf(Enclosing(language, path, n)) {
      AttributionMeaning(chunks, line);
      var i: nat :| IsLeast(chunks, line, i) && Attributed(chunks, line) == Some(chunks[i]);
      var k := PlaceOrigin(language, root, i);
      assert k == j;
    }
  }

  /** No other occurrence whose chunk covers the line has the name of occurrence j. */
  predicate OwnName(language: Language, root: Node, line: int, j: nat)
    requires j < |Visit([], root)| && ChunkAt(language, Visit([], root)[j]).Some?
  {
    forall k :: 0 <= k < |Visit([], root)| && k != j && ChunkCovers(language, Visit([], root)[k], line) ==>
                  ChunkAt(language, Visit([], root)[k]).value.symbol != ChunkAt(language, Visit([], root)[j]).value.symbol
  }

  // ----- where only enclosing chunks cover the line -----

  /** The innermost enclosing chunk covers the line, so some chunk is least. */
  lemma SomeChunkIsLeast(language: Language, root: Node, s: nat, path: Path, n: nat) returns (i: nat)
    requires CallSite(language, root, s, path, n)
    ensures IsLeast(Chunks(language, root), path[|path| - 1].startLine, i)
    ensures Attributed(Chunks(language, root), path[|path| - 1].startLine) == Some(Chunks(language, root)[i])
    ensures Span(Chunks(language, root)[i]) <= Span(Enclosing(language, path, n).value)
  {
    var chunks, line := Chunks(language, root), path[|path| - 1].startLine;
    EnclosingNest(language, path, n, n);
    EnclosingIsListed(language, root, s, n);
    AttributionMeaning(chunks, line);
    var x: nat :| x < |chunks| && chunks[x] == Enclosing(language, path, n).value;
    i :| IsLeast(chunks, line, i) && Attributed(chunks, line) == Some(chunks[i]);
  }

  /** The chunk of occurrence j, if it covers the line, is the enclosing one at j's depth. */
  lemma CoveringIsEnclosing(language: Language, root: Node, s: nat, path: Path, n: nat, j: nat)
    requires CallSite(language, root, s, path, n) && j < |Visit([], root)|
    requires ChunkCovers(language, Visit([], root)[j], path[|path| - 1].startLine)
    ensures Visit([], root)[j] <= path && |Visit([], root)[j]| <= n
    ensures Enclosing(language, path, |Visit([], root)[j]|) == ChunkAt(language, Visit([], root)[j])
  {
    var t := Visit([], root)[j];
    assert t <= path && t == path[..|t|];
    assert Enclosing(language, path, |t|).Some?;
  }

  /** No enclosing chunk further out than the chosen one has its span: it would stand before it. */
  lemma NoneFurtherOut(language: Language, root: Node, s: nat, path: Path, n: nat, i: nat, j: nat, k: nat)
    requires CallSite(language, root, s, path, n) && j < |Visit([], root)|
    requires Visit([], root)[j] <= path
    requires IsLeast(Chunks(language, root), path[|path| - 1].startLine, i)
    requires ChunkAt(language, Visit([], root)[j]) == Some(Chunks(language, root)[i])
    requires i == |Collect(ChunksOf(language), Visit([], root), j)|
    requires k < |Visit([], root)[j]| && Enclosing(language, path, k).Some?
    ensures Span(Enclosing(language, path, k).value) != Span(Chunks(language, root)[i])
  {
    var t := Visit([], root)[j];
    assert t[..k] == path[..k];
    var a := EnclosingStandsBefore(language, root, j, k, i);
    EnclosingNest(language, path, k, k);
    assert Covers(Chunks(language, root)[a], path[|path| - 1].startLine);
  }

  /**
   What sort-then-scan computes on a tree: with n the depth of the innermost enclosing chunk,
   the call goes to the outermost enclosing chunk that has the same span.
   */
  lemma AttributedToOutermostOfLeastSpan(language: Language, root: Node, s: nat, path: Path, n: nat, k: nat)
    requires CallSite(language, root, s, path, n)
    requires IsOutermostOfSpan(language, path, Span(Enclosing(language, path, n).value), k)
    ensures Attributed(Chunks(language, root), path[|path| - 1].startLine) == Enclosing(language, path, k)
  {
    var f, paths, chunks := ChunksOf(language), Visit([], root), Chunks(language, root);
    var i := SomeChunkIsLeast(language, root, s, path, n);
    var j := CollectOrigin(f, paths, |paths|, i);
    assert ChunkAt(language, paths[j]) == Some(chunks[i]);
    CoveringIsEnclosing(language, root, s, path, n, j);
    var depth := |paths[j]|;
    EnclosingNest(language, path, depth, n);
    assert Span(chunks[i]) == Span(Enclosing(language, path, n).value);
    assert k <= depth;
    if k < depth {
      NoneFurtherOut(language, root, s, path, n, i, j, k);
    }
  }

  predicate StrictlyNested(language: Language, path: Path, n: nat) {
    Enclosing(language, path, n).Some? &&
    forall m :: 0 <= m < n && Enclosing(language, path, m).Some? ==>
                  Span(Enclosing(language, path, m).value) != Span(Enclosing(language, path, n).value)
  }

  predicate DistinctlyNamed(language: Language, path: Path, n: nat) {
    Enclosing(language, path, n).Some? &&
    forall m :: 0 <= m < n && Enclosing(language, path, m).Some? ==>
                  Enclosing(language, path, m).value.symbol != Enclosing(language, path, n).value.symbol
  }

  /** Under strictly nested spans the call goes to its innermost named enclosing chunk. */
  lemma AttributedToInnermost(language: Language, root: Node, s: nat, path: Path, n: nat)
    requires CallSite(language, root, s, path, n) && StrictlyNested(language, path, n)
    ensures Attributed(Chunks(language, root), path[|path| - 1].startLine) == Enclosing(language, path, n)
  {
    AttributedToOutermostOfLeastSpan(language, root, s, path, n, n);
  }

  lemma {:induction false} OutermostExists(language: Language, path: Path, span: int, n: nat) returns (k: nat)
    requires Enclosing(language, path, n).Some? && Span(Enclosing(language, path, n).value) == span
    ensures k <= n && IsOutermostOfSpan(language, path, span, k)
    decreases n
  {
    k := n;
    if m: nat :| m < n && Enclosing(language, path, m).Some? && Span(Enclosing(language, path, m).value) == span {
      k := OutermostExists(language, path, span, m);
    }
  }

  /**
   There, if no outer chunk has the innermost one's name, the call is attributed to the
   innermost one if and only if no outer chunk has the same number of lines.
   */
  lemma InnermostAmongAncestorsIff(language: Language, root: Node, s: nat, path: Path, n: nat)
    requires CallSite(language, root, s, path, n) && DistinctlyNamed(language, path, n)
    ensures SymbolOf(Attributed(Chunks(language, root), path[|path| - 1].startLine)) == SymbolOf(Enclosing(language, path, n))
            <==> StrictlyNested(language, path, n)
  {
    var k := OutermostExists(language, path, Span(Enclosing(language, path, n).value), n);
    AttributedToOutermostOfLeastSpan(language, root, s, path, n, k);
  }

  /** A call with no named enclosing chunk is attributed to none. */
  lemma TopLevelCallHasNoSymbol(language: Language, root: Node, path: Path)
    requires path != [] && OnlyAncestorsCover(language, root, path, path[|path| - 1].startLine)
    requires forall k: nat :: Enclosing(language, path, k).None?
    ensures Attributed(Chunks(language, root), path[|path| - 1].startLine) == None
  {
    var f, paths, chunks := ChunksOf(language), Visit([], root), Chunks(language, root);
    var line := path[|path| - 1].startLine;
    AttributionMeaning(chunks, line);
    forall x: nat | x < |chunks| ensures !Covers(chunks[x], line) {
      var j := CollectOrigin(f, paths, |paths|, x);
      assert ChunkAt(language, paths[j]) == Some(chunks[x]);
      assert paths[j] <= path ==> paths[j] == path[..|paths[j]|];
      assert Enclosing(language, path, |paths[j]|).None?;
    }
  }

  /** A method written on its class's line, calling f. */
  const CALL_NODE := Node(CallExpression, map[FunctionField := "f"], 1, 1, "f()", [])
  const METHOD_NODE := Node(MethodDefinition, map[NameField := "m"], 1, 1, "m() { f() }", [CALL_NODE])
  const CLASS_NODE := Node(ClassDeclaration, map[NameField := "A"], 1, 1, "class A { m() { f() } }", [METHOD_NODE])

  lemma OneLineOccurrences()
    ensures Visit([], CLASS_NODE) == [[CLASS_NODE], [CLASS_NODE, METHOD_NODE], [CLASS_NODE, METHOD_NODE, CALL_NODE]]
  {
    var one, two, three := [CLASS_NODE], [CLASS_NODE, METHOD_NODE], [CLASS_NODE, METHOD_NODE, CALL_NODE];
    assert two + [CALL_NODE] == three && one + [METHOD_NODE] == two && [] + [CLASS_NODE] == one;
    assert VisitFrom(two, CALL_NODE, 0) == [];
    assert Visit(two, CALL_NODE) == [three];
    assert VisitFrom(one, METHOD_NODE, 1) == [];
    assert VisitFrom(one, METHOD_NODE, 0) == [three] + [];
    assert Visit(one, METHOD_NODE) == [two, three];
    assert VisitFrom([], CLASS_NODE, 1) == [];
    assert VisitFrom([], CLASS_NODE, 0) == [two, three] + [];
  }

  lemma OneLineCallSite()
    ensures CallSite(JavaScript, CLASS_NODE, 2, [CLASS_NODE, METHOD_NODE, CALL_NODE], 2)
  {
    var path := [CLASS_NODE, METHOD_NODE, CALL_NODE];
    OneLineOccurrences();
    assert path[..2] == [CLASS_NODE, METHOD_NODE] && path[..1] == [CLASS_NODE] && path[..3] == path;
    assert WellFormed(METHOD_NODE) && WellFormed(CALL_NODE);
    assert METHOD_NODE in CLASS_NODE.children && CALL_NODE in METHOD_NODE.children;
    assert Descends(path);
    assert NameAt(path[..2]) == Some("m");
    assert forall k: nat :: 2 < k ==> Enclosing(JavaScript, path, k).None?;
  }

  /** On one line the class and its method have the same span, and the call goes to the class. */
  lemma OneLineCallGoesToTheClass()
    ensures SymbolOf(Attributed(Chunks(JavaScript, CLASS_NODE), 1)) == Some("A")
  {
    var path := [CLASS_NODE, METHOD_NODE, CALL_NODE];
    OneLineCallSite();
    assert path[..2] == [CLASS_NODE, METHOD_NODE] && path[..1] == [CLASS_NODE];
    assert NameAt(path[..2]) == Some("m") && NameAt(path[..1]) == Some("A");
    assert Enclosing(JavaScript, path, 0).None?;
    assert IsOutermostOfSpan(JavaScript, path, 0, 1);
    AttributedToOutermostOfLeastSpan(JavaScript, CLASS_NODE, 2, path, 2, 1);
  }

  /** A function of three lines; its second line defines g and then calls f. */
  const ARROW_NODE := Node(ArrowFunction, map[], 2, 2, "() => 1", [])
  const G_NODE := Node(VariableDeclarator, map[NameField := "g"], 2, 2, "g = () => 1", [ARROW_NODE])
  const F_NODE := Node(CallExpression, map[FunctionField := "f"], 2, 2, "f()", [])
  const BIG_NODE := Node(FunctionDeclaration, map[NameField := "big"], 1, 3, "function big() {...}", [G_NODE, F_NODE])

  lemma SiblingOccurrences()
    ensures Visit([], BIG_NODE) == [[BIG_NODE], [BIG_NODE, G_NODE], [BIG_NODE, G_NODE, ARROW_NODE], [BIG_NODE, F_NODE]]
  {
    var one, two, three, four := [BIG_NODE], [BIG_NODE, G_NODE], [BIG_NODE, G_NODE, ARROW_NODE], [BIG_NODE, F_NODE];
    assert one + [G_NODE] == two && two + [ARROW_NODE] == three && one + [F_NODE] == four && [] + [BIG_NODE] == one;
    assert VisitFrom(two, ARROW_NODE, 0) == [] && VisitFrom(one, F_NODE, 0) == [];
    assert Visit(two, ARROW_NODE) == [three] && Visit(one, F_NODE) == [four];
    assert VisitFrom(one, G_NODE, 1) == [];
    assert VisitFrom(one, G_NODE, 0) == [three] + [];
    assert Visit(one, G_NODE) == [two, three];
    assert VisitFrom([], BIG_NODE, 2) == [];
    assert VisitFrom([], BIG_NODE, 1) == [four] + [];
    assert VisitFrom([], BIG_NODE, 0) == [two, three] + [four];
  }

  lemma SiblingChunks()
    ensures Chunks(JavaScript, BIG_NODE) == [Chunk("big", FUNCTION, None, 1, 3, BIG_NODE.text), Chunk("g", FUNCTION, None, 2, 2, ARROW_NODE.text)]
  {
    var f, paths := ChunksOf(JavaScript), Visit([], BIG_NODE);
    SiblingOccurrences();
    var big, g := Chunk("big", FUNCTION, None, 1, 3, BIG_NODE.text), Chunk("g", FUNCTION, None, 2, 2, ARROW_NODE.text);
    assert paths[0][..0] == [] && paths[2][..2] == [BIG_NODE, G_NODE] && [BIG_NODE, G_NODE][..1] == [BIG_NODE];
    assert Owner(JavaScript, [BIG_NODE]) == None && Owner(JavaScript, [BIG_NODE, G_NODE]) == None;
    assert NameAt(paths[2]) == Some("g");
    assert f(paths[0]) == Some(big) && f(paths[1]) == None && f(paths[2]) == Some(g) && f(paths[3]) == None;
    assert Collect(f, paths, 1) == [big] && Collect(f, paths, 2) == [big];
    assert Collect(f, paths, 3) == [big, g] && Collect(f, paths, 4) == [big, g];
  }

  /** The call of f is in big, and goes to its sibling g. */
  lemma SiblingTakesTheCall()
    ensures SymbolOf(Attributed(Chunks(JavaScript, BIG_NODE), F_NODE.startLine)) == Some("g")
    ensures Enclosing(JavaScript, [BIG_NODE, F_NODE], 1).Some? && Enclosing(JavaScript, [BIG_NODE, F_NODE], 1).value.symbol == "big"
  {
    SiblingChunks();
    AttributedIsLeast(Chunks(JavaScript, BIG_NODE), 2, 1);
    assert [BIG_NODE, F_NODE][..1] == [BIG_NODE] && [BIG_NODE][..0] == [];
  }
}
