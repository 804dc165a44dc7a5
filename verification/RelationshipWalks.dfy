/**
 The two recursive walks of worker/src/parsing/symbol_relationships.py, proved to record the
 imports and then the calls of the tree in preorder.
 */
module RelationshipWalks {
  import opened Wrappers
  import opened SourceChunks
  import opened SyntaxTree
  import opened Sequences
  import opened AstChunker
  import opened SymbolRelationships

  /** What _walk_for_imports appends at a node: at most one relationship, and no symbol of its own. */
  function ImportOf(node: Node): Option<Relationship> {
    match node.kind
    case ImportStatement =>
      (match FieldText(node, SourceField)
       case Some(quoted) =>
         if |quoted| >= 2 then Some(Relationship(IMPORTS, None, quoted[1..|quoted| - 1])) else None
       case None => NonEmpty(IMPORTS, None, FieldText(node, NameField)))
    case ImportFromStatement => NonEmpty(IMPORTS, None, FieldText(node, ModuleNameField))
    case _ => None
  }

  function CallOf(node: Node, chunks: seq<Chunk>): Option<Relationship> {
    match node.kind
    case Call => NonEmpty(CALLS, SymbolOf(Attributed(chunks, node.startLine)), FieldText(node, FunctionField))
    case CallExpression => NonEmpty(CALLS, SymbolOf(Attributed(chunks, node.startLine)), FieldText(node, FunctionField))
    case _ => None
  }

  function NonEmpty(kind: RelationKind, from: Option<string>, target: Option<string>): Option<Relationship> {
    if target in {None, Some("")} then None else Some(Relationship(kind, from, target.value))
  }

  function ImportsOf(): Path -> Option<Relationship> {
    path => if path == [] then None else ImportOf(path[|path| - 1])
  }

  function CallsOf(chunks: seq<Chunk>): Path -> Option<Relationship> {
    path => if path == [] then None else CallOf(path[|path| - 1], chunks)
  }

  function Listed(found: Option<Relationship>): seq<Relationship> {
    match found
    case Some(r) => [r]
    case None => []
  }

  function ImportsBelow(above: Path, node: Node): seq<Relationship> {
    Walked(ImportsOf(), above, node)
  }

  function ImportsUpTo(above: Path, node: Node, i: nat): seq<Relationship>
    requires i <= |node.children|
  {
    WalkedUpTo(ImportsOf(), above, node, i)
  }

  lemma ImportsUpToStart(above: Path, node: Node)
    ensures ImportsUpTo(above, node, 0) == Listed(ImportOf(node))
  {
    CollectOne(ImportsOf(), above + [node]);
    assert ImportsOf()(above + [node]) == ImportOf(node);
  }

  lemma ImportsUpToStep(before: seq<Relationship>, above: Path, node: Node, i: nat)
    requires i < |node.children|
    ensures before + ImportsUpTo(above, node, i + 1)
         == before + ImportsUpTo(above, node, i) + ImportsBelow(above + [node], node.children[i])
  {
    Associates(before, ImportsUpTo(above, node, i), ImportsBelow(above + [node], node.children[i]));
  }

  lemma ImportsUpToEnd(above: Path, node: Node)
    ensures ImportsUpTo(above, node, |node.children|) == ImportsBelow(above, node)
  {
    WalkIsComplete(ImportsOf(), above, node);
  }

  function CallsBelow(chunks: seq<Chunk>, above: Path, node: Node): seq<Relationship> {
    Walked(CallsOf(chunks), above, node)
  }

  function CallsUpTo(chunks: seq<Chunk>, above: Path, node: Node, i: nat): seq<Relationship>
    requires i <= |node.children|
  {
    WalkedUpTo(CallsOf(chunks), above, node, i)
  }

  lemma CallsUpToStart(chunks: seq<Chunk>, above: Path, node: Node)
    ensures CallsUpTo(chunks, above, node, 0) == Listed(CallOf(node, chunks))
  {
    CollectOne(CallsOf(chunks), above + [node]);
    assert CallsOf(chunks)(above + [node]) == CallOf(node, chunks);
  }

  lemma CallsUpToStep(before: seq<Relationship>, chunks: seq<Chunk>, above: Path, node: Node, i: nat)
    requires i < |node.children|
    ensures before + CallsUpTo(chunks, above, node, i + 1)
         == before + CallsUpTo(chunks, above, node, i) + CallsBelow(chunks, above + [node], node.children[i])
  {
    Associates(before, CallsUpTo(chunks, above, node, i), CallsBelow(chunks, above + [node], node.children[i]));
  }

  lemma CallsUpToEnd(chunks: seq<Chunk>, above: Path, node: Node)
    ensures CallsUpTo(chunks, above, node, |node.children|) == CallsBelow(chunks, above, node)
  {
    WalkIsComplete(CallsOf(chunks), above, node);
  }

  /** The relationships of a file: its imports in preorder, then its calls in preorder. */
  function Relationships(root: Node, chunks: seq<Chunk>): seq<Relationship> {
    ImportsBelow([], root) + CallsBelow(chunks, [], root)
  }

  // ----- what is recorded, without the walks -----

  /** The node imports this module: by a quoted source without its quotes, by a name, or as the module of a from-import. */
  predicate Imports(node: Node, target: string) {
    || (node.kind == ImportStatement && SourceField in node.fields
        && var quoted := node.fields[SourceField]; |quoted| == |target| + 2 && quoted[1..|quoted| - 1] == target)
    || (node.kind == ImportStatement && SourceField !in node.fields && HasText(node, NameField, target) && target != "")
    || (node.kind == ImportFromStatement && HasText(node, ModuleNameField, target) && target != "")
  }

  predicate IsImport(node: Node) {
    || (node.kind == ImportStatement && SourceField in node.fields && |node.fields[SourceField]| >= 2)
    || (node.kind == ImportStatement && SourceField !in node.fields && NameField in node.fields && node.fields[NameField] != "")
    || (node.kind == ImportFromStatement && ModuleNameField in node.fields && node.fields[ModuleNameField] != "")
  }

  /** The node calls a callee with this text. */
  predicate CallsTo(node: Node, target: string) {
    node.kind in {Call, CallExpression} && HasText(node, FunctionField, target) && target != ""
  }

  predicate IsCall(node: Node) {
    node.kind in {Call, CallExpression} && FunctionField in node.fields && node.fields[FunctionField] != ""
  }

  /** The caller of a line: the symbol of the least chunk that covers it, by span and then by place; none if no chunk does. */
  ghost predicate IsCaller(chunks: seq<Chunk>, line: int, caller: Option<string>) {
    if exists i :: 0 <= i < |chunks| && chunks[i].startLine <= line <= chunks[i].endLine
    then exists i: nat :: IsLeast(chunks, line, i) && caller == Some(chunks[i].symbol)
    else caller == None
  }

  ghost predicate IsImportRecord(node: Node, r: Relationship) {
    r.kind == IMPORTS && r.fromSymbol == None && Imports(node, r.target)
  }

  ghost predicate IsCallRecord(node: Node, chunks: seq<Chunk>, r: Relationship) {
    r.kind == CALLS && CallsTo(node, r.target) && IsCaller(chunks, node.startLine, r.fromSymbol)
  }

  function ImportAt(): Path -> bool {
    path => path != [] && IsImport(path[|path| - 1])
  }

  function CallAt(): Path -> bool {
    path => path != [] && IsCall(path[|path| - 1])
  }

  /** The place of the record of occurrence j, if it is an import or a call: imports first, each kind in preorder. */
  function ImportPlace(root: Node, j: nat): nat
    requires j <= |Visit([], root)|
  {
    Rank(Visit([], root), ImportAt(), j)
  }

  function CallPlace(root: Node, j: nat): nat
    requires j <= |Visit([], root)|
  {
    Rank(Visit([], root), ImportAt(), |Visit([], root)|) + Rank(Visit([], root), CallAt(), j)
  }

  ghost predicate RecordedInPlace(root: Node, chunks: seq<Chunk>, rels: seq<Relationship>, j: nat)
    requires j < |Visit([], root)|
  {
    var path := Visit([], root)[j];
    && (ImportAt()(path) ==> ImportPlace(root, j) < |rels| && IsImportRecord(path[|path| - 1], rels[ImportPlace(root, j)]))
    && (CallAt()(path) ==> CallPlace(root, j) < |rels| && IsCallRecord(path[|path| - 1], chunks, rels[CallPlace(root, j)]))
  }

  /** Each import and each call of the tree has its record, in its place, and there are no others. */
  ghost predicate AreRelationships(root: Node, chunks: seq<Chunk>, rels: seq<Relationship>) {
    && |rels| == CallPlace(root, |Visit([], root)|)
    && forall j: nat :: j < |Visit([], root)| ==> RecordedInPlace(root, chunks, rels, j)
  }

  lemma ImportMeaning(node: Node)
    ensures ImportOf(node).Some? <==> IsImport(node)
    ensures ImportOf(node).Some? ==> IsImportRecord(node, ImportOf(node).value)
  {}

  lemma AttributedIsCaller(chunks: seq<Chunk>, line: int)
    ensures IsCaller(chunks, line, SymbolOf(Attributed(chunks, line)))
  {
    AttributionMeaning(chunks, line);
    if Attributed(chunks, line).Some? {
      var i: nat :| IsLeast(chunks, line, i) && Attributed(chunks, line) == Some(chunks[i]);
      assert chunks[i].startLine <= line <= chunks[i].endLine;
    } else {
      forall i | 0 <= i < |chunks| ensures !(chunks[i].startLine <= line <= chunks[i].endLine) {
        assert !Covers(chunks[i], line);
      }
    }
  }

  /** And nobody else is. */
  lemma CallerIsUnique(chunks: seq<Chunk>, line: int, a: Option<string>, b: Option<string>)
    requires IsCaller(chunks, line, a) && IsCaller(chunks, line, b)
    ensures a == b
  {
    if a.Some? && b.Some? {
      var i: nat :| IsLeast(chunks, line, i) && a == Some(chunks[i].symbol);
      var j: nat :| IsLeast(chunks, line, j) && b == Some(chunks[j].symbol);
      assert i == j;
    }
  }

  lemma CallMeaning(node: Node, chunks: seq<Chunk>)
    ensures CallOf(node, chunks).Some? <==> IsCall(node)
    ensures CallOf(node, chunks).Some? ==> IsCallRecord(node, chunks, CallOf(node, chunks).value)
  {
    AttributedIsCaller(chunks, node.startLine);
  }

  lemma ImportsInPlace(root: Node, j: nat)
    requires j < |Visit([], root)| && ImportAt()(Visit([], root)[j])
    ensures |ImportsBelow([], root)| == ImportPlace(root, |Visit([], root)|) && ImportPlace(root, j) < |ImportsBelow([], root)|
    ensures var path := Visit([], root)[j]; IsImportRecord(path[|path| - 1], ImportsBelow([], root)[ImportPlace(root, j)])
  {
    var f, p, paths := ImportsOf(), ImportAt(), Visit([], root);
    forall path: Path ensures p(path) <==> f(path).Some? {
      if path != [] { ImportMeaning(path[|path| - 1]); }
    }
    CollectedAt(f, p, paths, j);
    ImportMeaning(paths[j][|paths[j]| - 1]);
  }

  lemma CallsInPlace(root: Node, chunks: seq<Chunk>, j: nat)
    requires j < |Visit([], root)| && CallAt()(Visit([], root)[j])
    ensures var path, k := Visit([], root)[j], Rank(Visit([], root), CallAt(), j);
            k < |CallsBelow(chunks, [], root)| && IsCallRecord(path[|path| - 1], chunks, CallsBelow(chunks, [], root)[k])
  {
    var f, p, paths := CallsOf(chunks), CallAt(), Visit([], root);
    forall path: Path ensures p(path) <==> f(path).Some? {
      if path != [] { CallMeaning(path[|path| - 1], chunks); }
    }
    CollectedAt(f, p, paths, j);
    CallMeaning(paths[j][|paths[j]| - 1], chunks);
  }

  lemma PartSizes(root: Node, chunks: seq<Chunk>)
    ensures |ImportsBelow([], root)| == Rank(Visit([], root), ImportAt(), |Visit([], root)|)
    ensures |CallsBelow(chunks, [], root)| == Rank(Visit([], root), CallAt(), |Visit([], root)|)
  {
    forall path: Path ensures ImportAt()(path) <==> ImportsOf()(path).Some? {
      if path != [] { ImportMeaning(path[|path| - 1]); }
    }
    forall path: Path ensures CallAt()(path) <==> CallsOf(chunks)(path).Some? {
      if path != [] { CallMeaning(path[|path| - 1], chunks); }
    }
    CollectRank(ImportsOf(), ImportAt(), Visit([], root), |Visit([], root)|);
    CollectRank(CallsOf(chunks), CallAt(), Visit([], root), |Visit([], root)|);
  }

  lemma RelationshipsMeaning(root: Node, chunks: seq<Chunk>)
    ensures AreRelationships(root, chunks, Relationships(root, chunks))
  {
    var rels, paths := Relationships(root, chunks), Visit([], root);
    PartSizes(root, chunks);
    forall j: nat | j < |paths| ensures RecordedInPlace(root, chunks, rels, j) {
      if ImportAt()(paths[j]) { ImportsInPlace(root, j); }
      if CallAt()(paths[j]) { CallsInPlace(root, chunks, j); }
    }
  }

  class Walker {
    ghost const chunks: seq<Chunk>
    const sorted: seq<Chunk>
    var relationships: seq<Relationship>

    constructor (chunks: seq<Chunk>)
      ensures this.chunks == chunks && sorted == SortedBySize(chunks) && relationships == []
    {
      this.chunks := chunks;
      sorted := SortedBySize(chunks);
      relationships := [];
    }

    /** _walk_for_imports */
    method WalkForImports(node: Node, frames: nat, ghost above: Path) returns (ok: bool)
      modifies this
      ensures ok <==> Height(node) <= frames
      ensures ok ==> relationships == old(relationships) + ImportsBelow(above, node)
      decreases node
    {
      if frames == 0 {
        return false;
      }
      ghost var before := relationships;
      AppendImport(node, above);
      var i := 0;
      while i < |node.children|
        invariant i <= |node.children|
        invariant relationships == before + ImportsUpTo(above, node, i)
        invariant Height(node) <= frames <==> HeightFrom(node, i) <= frames - 1
      {
        ok := WalkForImports(node.children[i], frames - 1, above + [node]);
        if !ok {
          return;
        }
        ImportsUpToStep(before, above, node, i);
        i := i + 1;
      }
      ImportsUpToEnd(above, node);
      ok := true;
    }

    method AppendImport(node: Node, ghost above: Path)
      modifies this
      ensures relationships == old(relationships) + ImportsUpTo(above, node, 0)
    {
      ImportsUpToStart(above, node);
      if node.kind.ImportStatement? {
        var source := FieldText(node, SourceField);
        if source.Some? {
          if |source.value| >= 2 {
            relationships := relationships + [Relationship(IMPORTS, None, source.value[1..|source.value| - 1])];
          }
        } else {
          AppendNonEmpty(FieldText(node, NameField));
        }
      }
      if node.kind.ImportFromStatement? {
        AppendNonEmpty(FieldText(node, ModuleNameField));
      }
    }

    method AppendNonEmpty(path: Option<string>)
      modifies this
      ensures relationships == old(relationships) + Listed(NonEmpty(IMPORTS, None, path))
    {
      if path.Some? && path.value != "" {
        relationships := relationships + [Relationship(IMPORTS, None, path.value)];
      }
    }

    /** _walk_for_calls */
    method WalkForCalls(node: Node, frames: nat, ghost above: Path) returns (ok: bool)
      requires sorted == SortedBySize(chunks)
      modifies this
      ensures ok <==> Height(node) <= frames
      ensures ok ==> relationships == old(relationships) + CallsBelow(chunks, above, node)
      decreases node
    {
      if frames == 0 {
        return false;
      }
      ghost var before := relationships;
      AppendCall(node, above);
      var i := 0;
      while i < |node.children|
        invariant i <= |node.children|
        invariant relationships == before + CallsUpTo(chunks, above, node, i)
        invariant Height(node) <= frames <==> HeightFrom(node, i) <= frames - 1
      {
        ok := WalkForCalls(node.children[i], frames - 1, above + [node]);
        if !ok {
          return;
        }
        CallsUpToStep(before, chunks, above, node, i);
        i := i + 1;
      }
      CallsUpToEnd(chunks, above, node);
      ok := true;
    }

    method AppendCall(node: Node, ghost above: Path)
      requires sorted == SortedBySize(chunks)
      modifies this
      ensures relationships == old(relationships) + CallsUpTo(chunks, above, node, 0)
    {
      CallsUpToStart(chunks, above, node);
      if node.kind.Call? || node.kind.CallExpression? {
        var target := FieldText(node, FunctionField);
        if target.Some? && target.value != "" {
          var fromSymbol := FindSymbolForNode(node, sorted);
          relationships := relationships + [Relationship(CALLS, fromSymbol, target.value)];
        }
      }
    }
  }

  /** extract_relationships; None is a language the worker has no grammar for, and a tree too deep to walk has none. */
  method ExtractRelationships(root: Node, language: Option<Language>, chunks: seq<Chunk>, frames: nat)
    returns (relationships: seq<Relationship>)
    ensures language.None? || Height(root) > frames ==> relationships == []
    ensures language.Some? && Height(root) <= frames ==>
              relationships == Relationships(root, chunks) && AreRelationships(root, chunks, relationships)
  {
    if language.None? {
      return [];
    }
    RelationshipsMeaning(root, chunks);
    var walker := new Walker(chunks);
    var ok := walker.WalkForImports(root, frames, []);
    if ok {
      ok := walker.WalkForCalls(root, frames, []);
    }
    Associates([], ImportsBelow([], root), CallsBelow(chunks, [], root));
    relationships := if ok then walker.relationships else [];
  }

  /** The relationship is the record of one of these nodes. */
  ghost predicate Records(paths: seq<Path>, chunks: seq<Chunk>, r: Relationship) {
    exists j: nat :: j < |paths| && RecordedAt(paths[j], chunks, r)
  }

  ghost predicate RecordedAt(path: Path, chunks: seq<Chunk>, r: Relationship) {
    path != [] && (IsImportRecord(path[|path| - 1], r) || IsCallRecord(path[|path| - 1], chunks, r))
  }

  lemma RecordIsUnique(node: Node, chunks: seq<Chunk>, r: Relationship)
    ensures IsImportRecord(node, r) <==> ImportOf(node) == Some(r)
    ensures IsCallRecord(node, chunks, r) <==> CallOf(node, chunks) == Some(r)
  {
    ImportMeaning(node);
    CallMeaning(node, chunks);
    if IsCallRecord(node, chunks, r) {
      CallerIsUnique(chunks, node.startLine, r.fromSymbol, CallOf(node, chunks).value.fromSymbol);
    }
  }

  /** Every import and every call of the tree is recorded, and nothing else is. */
  lemma RelationshipsAreThoseOfNodes(root: Node, chunks: seq<Chunk>, r: Relationship)
    ensures r in Relationships(root, chunks) <==> Records(Visit([], root), chunks, r)
  {
    var f, g, paths := ImportsOf(), CallsOf(chunks), Visit([], root);
    CollectMember(f, paths, r);
    CollectMember(g, paths, r);
    forall j: nat | j < |paths| ensures RecordedAt(paths[j], chunks, r) <==> f(paths[j]) == Some(r) || g(paths[j]) == Some(r) {
      if paths[j] != [] { RecordIsUnique(paths[j][|paths[j]| - 1], chunks, r); }
    }
    if Records(paths, chunks, r) {
      var j: nat :| j < |paths| && RecordedAt(paths[j], chunks, r);
    }
    if j: nat :| j < |paths| && (f(paths[j]) == Some(r) || g(paths[j]) == Some(r)) {
      assert RecordedAt(paths[j], chunks, r);
    }
  }

  /**
   What InnermostIff says of the recorded call: it names the innermost enclosing chunk if that
   one has no rival, and, when the name is the innermost chunk's own, only then.
   */
  lemma RecordedCallerIff(language: Language, root: Node, s: nat, path: Path, n: nat, j: nat)
    requires EnclosedSite(language, root, s, path, n) && j < |Visit([], root)| && Visit([], root)[j] == path[..n]
    requires IsCall(path[|path| - 1])
    ensures var chunks, line := Chunks(language, root), path[|path| - 1].startLine;
            var rels, unrivalled := Relationships(root, chunks), forall k: nat :: !Rivals(language, root, line, j, k);
            && CallPlace(root, s) < |rels| && IsCallRecord(path[|path| - 1], chunks, rels[CallPlace(root, s)])
            && (unrivalled ==> rels[CallPlace(root, s)].fromSymbol == SymbolOf(Enclosing(language, path, n)))
            && (OwnName(language, root, line, j) ==>
                  (rels[CallPlace(root, s)].fromSymbol == SymbolOf(Enclosing(language, path, n)) <==> unrivalled))
  {
    var chunks, line := Chunks(language, root), path[|path| - 1].startLine;
    var rels := Relationships(root, chunks);
    RelationshipsMeaning(root, chunks);
    assert RecordedInPlace(root, chunks, rels, s);
    AttributedIsCaller(chunks, line);
    CallerIsUnique(chunks, line, rels[CallPlace(root, s)].fromSymbol, SymbolOf(Attributed(chunks, line)));
    InnermostIff(language, root, s, path, n, j);
  }
}
