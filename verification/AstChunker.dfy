/**
 The chunker of worker/src/parsing/ast_chunker.py: a recursive walk that threads the name of
 the enclosing class downwards, proved against a specification that looks at the ancestors
 of each node.
 */
module AstChunker {
  import opened Wrappers
  import opened SourceChunks
  import opened SyntaxTree
  import opened Sequences

  datatype Language = JavaScript | TypeScript | Python

  /** _CHUNK_NODE_TYPES */
  function ChunkType(language: Language, kind: Kind): Option<SymbolType> {
    match language
    case Python =>
      (match kind
       case FunctionDefinition => Some(FUNCTION)
       case ClassDefinition => Some(CLASS)
       case _ => None)
    case _ =>
      match kind
      case FunctionDeclaration => Some(FUNCTION)
      case MethodDefinition => Some(METHOD)
      case ClassDeclaration => Some(CLASS)
      case InterfaceDeclaration => if language == TypeScript then Some(INTERFACE) else None
      case ArrowFunction => Some(FUNCTION)
      case FunctionExpression => Some(FUNCTION)
      case _ => None
  }

  predicate IsBoundary(language: Language, kind: Kind) {
    ChunkType(language, kind).Some?
  }

  predicate IsClass(language: Language, kind: Kind) {
    IsBoundary(language, kind) && (kind.ClassDeclaration? || kind.ClassDefinition?)
  }

  /** _UNNAMED_FUNCTION_PARENT_NAME_FIELD */
  function NameFieldOfParent(kind: Kind): Option<Field> {
    match kind
    case VariableDeclarator => Some(NameField)
    case FieldDefinition => Some(PropertyField)
    case PublicFieldDefinition => Some(NameField)
    case _ => None
  }

  function ExtractName(node: Node, parent: Option<Node>): Option<string> {
    if FieldText(node, NameField).Some? then FieldText(node, NameField)
    else if (node.kind.ArrowFunction? || node.kind.FunctionExpression?) && parent.Some? then
      match NameFieldOfParent(parent.value.kind)
      case Some(field) => FieldText(parent.value, field)
      case None => None
    else None
  }

  // ----- the ancestor-based specification -----

  function Parent(above: Path): Option<Node> {
    if above == [] then None else Some(above[|above| - 1])
  }

  function NameAt(path: Path): Option<string>
    requires path != []
  {
    ExtractName(path[|path| - 1], Parent(path[..|path| - 1]))
  }

  /** The name of the class that something below above is directly in: only the nearest boundary counts. */
  function Owner(language: Language, above: Path): Option<string> {
    if above == [] then None
    else
      var kind := above[|above| - 1].kind;
      if IsBoundary(language, kind) then (if IsClass(language, kind) then NameAt(above) else None)
      else Owner(language, above[..|above| - 1])
  }

  function ChunkAt(language: Language, path: Path): Option<Chunk> {
    if path == [] || !IsBoundary(language, path[|path| - 1].kind) || NameAt(path) in {None, Some("")} then None
    else
      var node, owner := path[|path| - 1], Owner(language, path[..|path| - 1]);
      var base := ChunkType(language, node.kind).value;
      var symbolType := if base == FUNCTION && owner.Some? then METHOD else base;
      Some(Chunk(NameAt(path).value, symbolType, if symbolType == METHOD then owner else None,
                 node.startLine, node.endLine, node.text))
  }

  function ChunksOf(language: Language): Path -> Option<Chunk> {
    path => ChunkAt(language, path)
  }

  /** The chunks of node and everything below it, in preorder. */
  function ChunksBelow(language: Language, above: Path, node: Node): seq<Chunk> {
    Walked(ChunksOf(language), above, node)
  }

  /** The chunks of node itself and of its first i children. */
  function ChunksUpTo(language: Language, above: Path, node: Node, i: nat): seq<Chunk>
    requires i <= |node.children|
  {
    WalkedUpTo(ChunksOf(language), above, node, i)
  }

  lemma ChunksUpToStep(language: Language, above: Path, node: Node, i: nat)
    requires i < |node.children|
    ensures ChunksUpTo(language, above, node, i + 1)
            == ChunksUpTo(language, above, node, i) + ChunksBelow(language, above + [node], node.children[i])
  {}

  lemma ChunksUpToEnd(language: Language, above: Path, node: Node)
    ensures ChunksUpTo(language, above, node, |node.children|) == ChunksBelow(language, above, node)
  {
    WalkIsComplete(ChunksOf(language), above, node);
  }

  /** The chunks of a file: those of its occurrences, in preorder. */
  function Chunks(language: Language, root: Node): seq<Chunk> {
    ChunksBelow(language, [], root)
  }

  // ----- the specification without its tables and recursion -----

  /** A node of this kind is a chunk boundary, and this type is what its chunk starts from. */
  predicate IsChunkKind(language: Language, kind: Kind, t: SymbolType) {
    match language
    case Python => (kind, t) in {(FunctionDefinition, FUNCTION), (ClassDefinition, CLASS)}
    case JavaScript => IsScriptKind(kind, t)
    case TypeScript => IsScriptKind(kind, t) || (kind, t) == (InterfaceDeclaration, INTERFACE)
  }

  predicate IsScriptKind(kind: Kind, t: SymbolType) {
    (kind, t) in {(FunctionDeclaration, FUNCTION), (ArrowFunction, FUNCTION), (FunctionExpression, FUNCTION),
                  (MethodDefinition, METHOD), (ClassDeclaration, CLASS)}
  }

  predicate Bounds(language: Language, kind: Kind) {
    exists t :: IsChunkKind(language, kind, t)
  }

  /**
   The last node of the path has this name: its own name field, or, for an arrow function or
   a function expression without one, that of the declarator or class field around it.
   */
  predicate NamedBy(path: Path, name: string)
    requires path != []
  {
    var node := path[|path| - 1];
    if NameField in node.fields then name == node.fields[NameField]
    else
      && node.kind in {ArrowFunction, FunctionExpression} && |path| > 1
      && var parent := path[|path| - 2];
         || (parent.kind in {VariableDeclarator, PublicFieldDefinition} && HasText(parent, NameField, name))
         || (parent.kind == FieldDefinition && HasText(parent, PropertyField, name))
  }

  predicate HasText(node: Node, field: Field, text: string) {
    field in node.fields && node.fields[field] == text
  }

  /** The k-th node of the path is a class named p, and no boundary lies between it and the last one. */
  predicate DirectlyIn(language: Language, path: Path, k: nat, p: string) {
    && k + 1 < |path| && Bounds(language, path[k].kind) && path[k].kind in {ClassDeclaration, ClassDefinition}
    && NamedBy(path[..k + 1], p)
    && forall m :: k < m < |path| - 1 ==> !Bounds(language, path[m].kind)
  }

  ghost predicate IsMember(language: Language, path: Path, p: string) {
    exists k: nat :: DirectlyIn(language, path, k, p)
  }

  /** The type of the chunk of a node whose kind stands for base. */
  ghost predicate HasType(language: Language, path: Path, base: SymbolType, t: SymbolType) {
    if base == FUNCTION && exists p :: IsMember(language, path, p) then t == METHOD else t == base
  }

  ghost predicate HasSomeType(language: Language, path: Path, t: SymbolType)
    requires path != []
  {
    exists base :: IsChunkKind(language, path[|path| - 1].kind, base) && HasType(language, path, base, t)
  }

  /** The chunk of the path's last node: its name, type, class, lines and text. */
  ghost predicate IsChunkOf(language: Language, path: Path, c: Chunk)
    requires path != []
  {
    var node := path[|path| - 1];
    && NamedBy(path, c.symbol) && c.symbol != ""
    && HasSomeType(language, path, c.symbolType)
    && (forall p :: c.parentSymbol == Some(p) <==> c.symbolType == METHOD && IsMember(language, path, p))
    && c.startLine == node.startLine && c.endLine == node.endLine && c.content == node.text
  }

  /** The path's last node is a boundary with a name. */
  predicate IsChunked(language: Language, path: Path) {
    path != [] && Bounds(language, path[|path| - 1].kind) && IsNamed(path)
  }

  predicate IsNamed(path: Path)
    requires path != []
  {
    var node := path[|path| - 1];
    if NameField in node.fields then node.fields[NameField] != ""
    else
      && node.kind in {ArrowFunction, FunctionExpression} && |path| > 1
      && var parent := path[|path| - 2];
         || (parent.kind in {VariableDeclarator, PublicFieldDefinition} && NameField in parent.fields && parent.fields[NameField] != "")
         || (parent.kind == FieldDefinition && PropertyField in parent.fields && parent.fields[PropertyField] != "")
  }

  function ChunkedIn(language: Language): Path -> bool {
    path => IsChunked(language, path)
  }

  /** Each named boundary of the tree has its chunk, in preorder, and there are no others. */
  ghost predicate AreChunks(language: Language, root: Node, chunks: seq<Chunk>) {
    var paths, p := Visit([], root), ChunkedIn(language);
    && |chunks| == Rank(paths, p, |paths|)
    && forall j: nat :: j < |paths| && IsChunked(language, paths[j]) ==>
         Rank(paths, p, j) < |chunks| && IsChunkOf(language, paths[j], chunks[Rank(paths, p, j)])
  }

  lemma ChunkKindIff(language: Language, kind: Kind, t: SymbolType)
    ensures IsChunkKind(language, kind, t) <==> ChunkType(language, kind) == Some(t)
    ensures Bounds(language, kind) <==> IsBoundary(language, kind)
  {
    if IsBoundary(language, kind) {
      assert IsChunkKind(language, kind, ChunkType(language, kind).value);
    }
  }

  lemma NameIff(path: Path, name: string)
    requires path != []
    ensures NamedBy(path, name) <==> NameAt(path) == Some(name)
    ensures IsNamed(path) <==> NameAt(path) !in {None, Some("")}
  {
    if |path| > 1 { assert path[..|path| - 1][|path| - 2] == path[|path| - 2]; }
  }

  lemma MemberIff(language: Language, path: Path, p: string)
    requires path != []
    ensures IsMember(language, path, p) <==> Owner(language, path[..|path| - 1]) == Some(p)
  {
    var above := path[..|path| - 1];
    OwnerIff(language, above, p);
    forall k: nat ensures DirectlyIn(language, path, k, p) <==> NearestIsClass(language, above, k, p) {
      DirectlyInIff(language, path, k, p);
    }
  }

  lemma DirectlyInIff(language: Language, path: Path, k: nat, p: string)
    requires path != []
    ensures DirectlyIn(language, path, k, p) <==> NearestIsClass(language, path[..|path| - 1], k, p)
  {
    var above := path[..|path| - 1];
    if k < |above| {
      assert above[..k + 1] == path[..k + 1] && above[k] == path[k];
      NameIff(path[..k + 1], p);
      ChunkKindIff(language, path[k].kind, CLASS);
      forall m | k < m < |above| ensures Bounds(language, path[m].kind) <==> IsBoundary(language, above[m].kind) {
        ChunkKindIff(language, path[m].kind, CLASS);
      }
    }
  }

  lemma TypeIff(language: Language, path: Path, t: SymbolType)
    requires path != [] && IsBoundary(language, path[|path| - 1].kind)
    ensures HasSomeType(language, path, t)
            <==> var base, owner := ChunkType(language, path[|path| - 1].kind).value, Owner(language, path[..|path| - 1]);
                 t == if base == FUNCTION && owner.Some? then METHOD else base
  {
    var kind, owner := path[|path| - 1].kind, Owner(language, path[..|path| - 1]);
    var base := ChunkType(language, kind).value;
    forall b ensures IsChunkKind(language, kind, b) <==> b == base { ChunkKindIff(language, kind, b); }
    forall p ensures IsMember(language, path, p) <==> owner == Some(p) { MemberIff(language, path, p); }
    assert owner.Some? <==> exists p :: IsMember(language, path, p) by {
      if owner.Some? { assert IsMember(language, path, owner.value); }
    }
    assert HasSomeType(language, path, t) <==> HasType(language, path, base, t);
  }

  lemma ChunkAtMeaning(language: Language, path: Path)
    requires path != []
    ensures ChunkAt(language, path).Some? <==> IsChunked(language, path)
    ensures ChunkAt(language, path).Some? ==> IsChunkOf(language, path, ChunkAt(language, path).value)
  {
    var node, owner := path[|path| - 1], Owner(language, path[..|path| - 1]);
    ChunkKindIff(language, node.kind, CLASS);
    NameIff(path, "");
    if ChunkAt(language, path).Some? {
      var c := ChunkAt(language, path).value;
      NameIff(path, c.symbol);
      TypeIff(language, path, c.symbolType);
      forall p ensures IsMember(language, path, p) <==> owner == Some(p) { MemberIff(language, path, p); }
    }
  }

  lemma ChunksMeaning(language: Language, root: Node)
    ensures AreChunks(language, root, Chunks(language, root))
  {
    var f, p, paths := ChunksOf(language), ChunkedIn(language), Visit([], root);
    forall path: Path ensures p(path) <==> f(path).Some? {
      if path != [] { ChunkAtMeaning(language, path); }
    }
    CollectRank(f, p, paths, |paths|);
    forall j: nat | j < |paths| && IsChunked(language, paths[j])
      ensures Rank(paths, p, j) < |Chunks(language, root)| && IsChunkOf(language, paths[j], Chunks(language, root)[Rank(paths, p, j)])
    {
      CollectedAt(f, p, paths, j);
      ChunkAtMeaning(language, paths[j]);
    }
  }

  // ----- the code -----

  /** What _walk is called with: the last ancestor, and the class that its children are in. */
  predicate Threaded(language: Language, above: Path, parent: Option<Node>, parentClass: Option<string>) {
    parent == Parent(above) && parentClass == Owner(language, above)
  }

  class Chunker {
    const language: Language
    var chunks: seq<Chunk>

    constructor (language: Language)
      ensures this.language == language && chunks == []
    {
      this.language := language;
      chunks := [];
    }

    /** The part of _walk before its loops: append the node's own chunk, and say whose members its children are. */
    method AppendChunk(node: Node, parent: Option<Node>, parentClass: Option<string>, ghost above: Path)
      returns (nextParent: Option<string>)
      requires Threaded(language, above, parent, parentClass)
      modifies this
      ensures chunks == old(chunks) + ChunksUpTo(language, above, node, 0)
      ensures Threaded(language, above + [node], Some(node), nextParent)
    {
      ghost var path := above + [node];
      assert path[..|path| - 1] == above;
      CollectOne(ChunksOf(language), path);
      nextParent := parentClass;
      var chunkType := ChunkType(language, node.kind);
      if chunkType.Some? {
        var name := ExtractName(node, parent);
        if name.Some? && name.value != "" {
          var symbolType := chunkType.value;
          if symbolType == FUNCTION && parentClass.Some? {
            symbolType := METHOD;
          }
          chunks := chunks + [Chunk(name.value, symbolType, if symbolType == METHOD then parentClass else None,
                                    node.startLine, node.endLine, node.text)];
        }
        nextParent := if node.kind.ClassDeclaration? || node.kind.ClassDefinition? then name else None;
      }
    }

    /**
     _walk. It sees its parent node and the threaded class name only; above is the whole
     ancestry, and the contract is the ancestor-based specification. frames is how much
     deeper the interpreter lets it recurse.
     */
    method Walk(node: Node, parent: Option<Node>, parentClass: Option<string>, frames: nat, ghost above: Path)
      returns (ok: bool)
      requires Threaded(language, above, parent, parentClass)
      modifies this
      ensures ok <==> Height(node) <= frames
      ensures ok ==> chunks == old(chunks) + ChunksBelow(language, above, node)
      decreases node
    {
      if frames == 0 {
        return false;
      }
      ghost var path := above + [node];
      ghost var before := chunks;
      var nextParent := AppendChunk(node, parent, parentClass, above);
      var i := 0;
      while i < |node.children|
        invariant i <= |node.children|
        invariant chunks == before + ChunksUpTo(language, above, node, i)
        invariant Height(node) <= frames <==> HeightFrom(node, i) <= frames - 1
      {
        ghost var soFar := ChunksUpTo(language, above, node, i);
        ok := Walk(node.children[i], Some(node), nextParent, frames - 1, path);
        if !ok {
          return;
        }
        ChunksUpToStep(language, above, node, i);
        Associates(before, soFar, ChunksBelow(language, path, node.children[i]));
        i := i + 1;
      }
      ChunksUpToEnd(language, above, node);
      ok := true;
    }
  }

  /** chunk_file; None is a language the worker has no grammar for, and a tree too deep to walk has no chunks. */
  method ChunkFile(root: Node, language: Option<Language>, frames: nat) returns (chunks: seq<Chunk>)
    ensures language.None? || Height(root) > frames ==> chunks == []
    ensures language.Some? && Height(root) <= frames ==>
              chunks == Chunks(language.value, root) && AreChunks(language.value, root, chunks)
  {
    if language.None? {
      return [];
    }
    ChunksMeaning(language.value, root);
    var chunker := new Chunker(language.value);
    var ok := chunker.Walk(root, None, None, frames, []);
    chunks := if ok then chunker.chunks else [];
  }

  // ----- what the specification says -----

  predicate NoneBetween(language: Language, above: Path, k: nat) {
    forall m :: k < m < |above| ==> !IsBoundary(language, above[m].kind)
  }

  /** The k-th ancestor is a class named p, and it is the nearest enclosing boundary. */
  predicate NearestIsClass(language: Language, above: Path, k: nat, p: string) {
    k < |above| && IsClass(language, above[k].kind) && NameAt(above[..k + 1]) == Some(p) && NoneBetween(language, above, k)
  }

  lemma {:induction false} OwnerIff(language: Language, above: Path, p: string)
    ensures Owner(language, above) == Some(p) <==> exists k: nat :: NearestIsClass(language, above, k, p)
  {
    if above == [] {
    } else {
      var last, up := |above| - 1, above[..|above| - 1];
      assert above[..last + 1] == above;
      if IsBoundary(language, above[last].kind) {
        if Owner(language, above) == Some(p) {
          assert NearestIsClass(language, above, last, p);
        }
        forall k: nat | NearestIsClass(language, above, k, p) ensures k == last {
        }
      } else {
        OwnerIff(language, up, p);
        forall k: nat ensures NearestIsClass(language, up, k, p) <==> NearestIsClass(language, above, k, p) {
          if k < last {
            assert up[..k + 1] == above[..k + 1];
            assert NoneBetween(language, up, k) <==> NoneBetween(language, above, k) by {
              assert forall m :: k < m < |up| ==> up[m] == above[m];
            }
          }
        }
      }
    }
  }

  /**
   Exactly the named boundary nodes have a chunk. It is a METHOD if and only if the node is a
   method_definition, or a function whose nearest enclosing boundary is a class with a name,
   and its parent symbol is p if and only if it is a METHOD directly in a class named p.
   */
  lemma ChunkIff(language: Language, path: Path, p: string)
    requires path != []
    ensures var node, above, chunk := path[|path| - 1], path[..|path| - 1], ChunkAt(language, path);
            && (chunk.Some? <==> IsBoundary(language, node.kind) && NameAt(path).Some? && NameAt(path).value != "")
            && (chunk.Some? ==>
                  && chunk.value.symbol == NameAt(path).value
                  && chunk.value.startLine == node.startLine && chunk.value.endLine == node.endLine
                  && (chunk.value.parentSymbol == Some(p) <==>
                        chunk.value.symbolType == METHOD && exists k: nat :: NearestIsClass(language, above, k, p)))
  {
    OwnerIff(language, path[..|path| - 1], p);
  }

  lemma MethodIff(language: Language, path: Path)
    requires path != [] && ChunkAt(language, path).Some?
    ensures var node, above := path[|path| - 1], path[..|path| - 1];
            ChunkAt(language, path).value.symbolType == METHOD <==>
              ChunkType(language, node.kind) == Some(METHOD)
              || (ChunkType(language, node.kind) == Some(FUNCTION)
                  && exists k: nat, p :: NearestIsClass(language, above, k, p))
  {
    var above := path[..|path| - 1];
    if Owner(language, above).Some? {
      OwnerIff(language, above, Owner(language, above).value);
    }
    forall k: nat, p | NearestIsClass(language, above, k, p) ensures Owner(language, above) == Some(p) {
      OwnerIff(language, above, p);
    }
  }

  /** A function inside a function or method belongs to no class, however many classes are further out. */
  lemma ClosuresHaveNoParent(language: Language, path: Path, k: nat)
    requires path != [] && ChunkAt(language, path).Some? && k < |path| - 1
    requires IsBoundary(language, path[k].kind) && !IsClass(language, path[k].kind)
    requires NoneBetween(language, path[..|path| - 1], k)
    ensures ChunkAt(language, path).value.parentSymbol == None
  {
    var above := path[..|path| - 1];
    forall m: nat, p ensures !NearestIsClass(language, above, m, p) {
      assert above[k] == path[k];
    }
    match Owner(language, above)
    case None => {}
    case Some(p) => { OwnerIff(language, above, p); }
  }

  ghost predicate HasChunk(language: Language, paths: seq<Path>, chunk: Chunk) {
    exists j: nat :: j < |paths| && ChunkAt(language, paths[j]) == Some(chunk)
  }

  /** A file's chunks are the chunks of its occurrences, and nothing else is chunked. */
  lemma ChunksAreThoseOfOccurrences(language: Language, root: Node, chunk: Chunk)
    ensures chunk in Chunks(language, root) <==> HasChunk(language, Visit([], root), chunk)
  {
    var f, paths := ChunksOf(language), Visit([], root);
    CollectMember(f, paths, chunk);
    if HasChunk(language, paths, chunk) {
      var j: nat :| j < |paths| && ChunkAt(language, paths[j]) == Some(chunk);
      assert f(paths[j]) == Some(chunk);
    }
  }

  /** A chunk nested in another one lies within its lines, and comes after it in the list. */
  lemma ChunksNest(language: Language, root: Node, j: nat, k: nat)
    requires WellFormed(root) && j < |Visit([], root)| && 0 < k < |Visit([], root)[j]|
    requires ChunkAt(language, Visit([], root)[j]).Some? && ChunkAt(language, Visit([], root)[j][..k]).Some?
    ensures var inner, outer := ChunkAt(language, Visit([], root)[j]).value, ChunkAt(language, Visit([], root)[j][..k]).value;
            && outer.startLine <= inner.startLine <= inner.endLine <= outer.endLine
            && Precedes(Chunks(language, root), outer, inner)
  {
    var paths := Visit([], root);
    VisitDescends([], root, j);
    LinesNest(paths[j], k - 1, |paths[j]| - 1);
    var i := AncestorComesFirst([], root, j, k);
    CollectPrecedes(ChunksOf(language), paths, i, j);
  }
}
