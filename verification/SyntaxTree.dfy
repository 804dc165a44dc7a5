/**
 The syntax trees that tree-sitter hands to the parsing module, and their preorder walk.

 An occurrence of a node is the sequence of nodes from the root down to it, so its last
 element is the node and the others are its ancestors.
 */
module SyntaxTree {
  import opened Wrappers
  import opened Sequences

  datatype Kind =
    | FunctionDeclaration | MethodDefinition | ClassDeclaration | InterfaceDeclaration
    | ArrowFunction | FunctionExpression | FunctionDefinition | ClassDefinition
    | VariableDeclarator | FieldDefinition | PublicFieldDefinition
    | ImportStatement | ImportFromStatement | CallExpression | Call
    | OtherKind(name: string)

  datatype Field = NameField | PropertyField | SourceField | ModuleNameField | FunctionField

  /** fields gives the source text of each named child; lines count from 1. */
  datatype Node = Node(kind: Kind, fields: map<Field, string>, startLine: int, endLine: int, text: string,
                       children: seq<Node>)

  type Path = seq<Node>

  function FieldText(node: Node, field: Field): Option<string> {
    if field in node.fields then Some(node.fields[field]) else None
  }

  // ----- preorder -----

  function Visit(above: Path, node: Node): seq<Path>
    decreases node, |node.children| + 1
  {
    [above + [node]] + VisitFrom(above, node, 0)
  }

  /** The occurrences below node, from its i-th child on. */
  function VisitFrom(above: Path, node: Node, i: nat): seq<Path>
    requires i <= |node.children|
    decreases node, |node.children| - i
  {
    if i == |node.children| then []
    else Visit(above + [node], node.children[i]) + VisitFrom(above, node, i + 1)
  }

  /** The items a walk collects: f says what it appends at an occurrence. */
  function Collect<T>(f: Path -> Option<T>, paths: seq<Path>, n: nat): seq<T>
    requires n <= |paths|
  {
    if n == 0 then []
    else
      var before := Collect(f, paths, n - 1);
      match f(paths[n - 1])
      case Some(x) => before + [x]
      case None => before
  }

  function CollectAll<T>(f: Path -> Option<T>, paths: seq<Path>): seq<T> {
    Collect(f, paths, |paths|)
  }

  lemma {:induction false} CollectPrefix<T>(f: Path -> Option<T>, a: seq<Path>, b: seq<Path>, n: nat)
    requires n <= |a|
    ensures Collect(f, a + b, n) == Collect(f, a, n)
  {
    if n == 0 {
    } else {
      CollectPrefix(f, a, b, n - 1);
      assert (a + b)[n - 1] == a[n - 1];
    }
  }

  lemma {:induction false} CollectSplits<T>(f: Path -> Option<T>, a: seq<Path>, b: seq<Path>, n: nat)
    requires n <= |b|
    ensures Collect(f, a + b, |a| + n) == CollectAll(f, a) + Collect(f, b, n)
  {
    if n == 0 {
      CollectPrefix(f, a, b, |a|);
    } else {
      CollectSplits(f, a, b, n - 1);
      assert (a + b)[|a| + n - 1] == b[n - 1];
    }
  }

  lemma CollectOfSum<T>(f: Path -> Option<T>, a: seq<Path>, b: seq<Path>)
    ensures CollectAll(f, a + b) == CollectAll(f, a) + CollectAll(f, b)
  {
    CollectSplits(f, a, b, |b|);
  }

  lemma CollectOne<T>(f: Path -> Option<T>, path: Path)
    ensures CollectAll(f, [path]) == match f(path) case Some(x) => [x] case None => []
  {
    assert Collect(f, [path], 0) == [];
  }

  /** Where the item of occurrence j ends up. */
  lemma {:induction false} CollectKeepsOrder<T>(f: Path -> Option<T>, paths: seq<Path>, j: nat, n: nat)
    requires j < n <= |paths| && f(paths[j]).Some?
    ensures |Collect(f, paths, j)| < |Collect(f, paths, n)|
    ensures Collect(f, paths, n)[|Collect(f, paths, j)|] == f(paths[j]).value
  {
    if n > j + 1 {
      CollectKeepsOrder(f, paths, j, n - 1);
    }
  }

  /** Which occurrence item i comes from. */
  lemma {:induction false} CollectOrigin<T>(f: Path -> Option<T>, paths: seq<Path>, n: nat, i: nat) returns (j: nat)
    requires n <= |paths| && i < |Collect(f, paths, n)|
    ensures j < n && f(paths[j]) == Some(Collect(f, paths, n)[i]) && i == |Collect(f, paths, j)|
  {
    if i < |Collect(f, paths, n - 1)| {
      j := CollectOrigin(f, paths, n - 1, i);
    } else {
      j := n - 1;
    }
  }

  /** The collected items are those of the occurrences. */
  lemma CollectMember<T>(f: Path -> Option<T>, paths: seq<Path>, x: T)
    ensures x in CollectAll(f, paths) <==> exists j: nat :: j < |paths| && f(paths[j]) == Some(x)
  {
    if x in CollectAll(f, paths) {
      var i: nat :| i < |CollectAll(f, paths)| && CollectAll(f, paths)[i] == x;
      var j := CollectOrigin(f, paths, |paths|, i);
    }
    forall j: nat | j < |paths| && f(paths[j]) == Some(x) ensures x in CollectAll(f, paths) {
      CollectKeepsOrder(f, paths, j, |paths|);
    }
  }

  /** x is collected before y. */
  ghost predicate Precedes<T(!new)>(s: seq<T>, x: T, y: T) {
    exists a: nat, b: nat :: a < b < |s| && s[a] == x && s[b] == y
  }

  lemma CollectPrecedes<T(!new)>(f: Path -> Option<T>, paths: seq<Path>, i: nat, j: nat)
    requires i < j < |paths| && f(paths[i]).Some? && f(paths[j]).Some?
    ensures Precedes(CollectAll(f, paths), f(paths[i]).value, f(paths[j]).value)
  {
    CollectKeepsOrder(f, paths, i, |paths|);
    CollectKeepsOrder(f, paths, j, |paths|);
    CollectKeepsOrder(f, paths, i, j);
    var a, b, s := |Collect(f, paths, i)|, |Collect(f, paths, j)|, CollectAll(f, paths);
    assert a < b < |s| && s[a] == f(paths[i]).value && s[b] == f(paths[j]).value;
  }

  /** The items collected from the first n occurrences are as many as the occurrences that have one. */
  lemma {:induction false} CollectRank<T>(f: Path -> Option<T>, p: Path -> bool, paths: seq<Path>, n: nat)
    requires n <= |paths| && forall path: Path :: p(path) <==> f(path).Some?
    ensures |Collect(f, paths, n)| == Rank(paths, p, n)
  {
    for k := 0 to n
      invariant |Collect(f, paths, k)| == Rank(paths, p, k)
    {}
  }

  /** So the item of occurrence j stands in the place that the earlier items leave it. */
  lemma CollectedAt<T>(f: Path -> Option<T>, p: Path -> bool, paths: seq<Path>, j: nat)
    requires j < |paths| && p(paths[j]) && forall path: Path :: p(path) <==> f(path).Some?
    ensures |CollectAll(f, paths)| == Rank(paths, p, |paths|)
    ensures Rank(paths, p, j) < |CollectAll(f, paths)| && Some(CollectAll(f, paths)[Rank(paths, p, j)]) == f(paths[j])
  {
    CollectRank(f, p, paths, |paths|);
    CollectRank(f, p, paths, j);
    CollectKeepsOrder(f, paths, j, |paths|);
  }

  // ----- recursive walks -----

  /** What a walk collects at node and below it. */
  function Walked<T>(f: Path -> Option<T>, above: Path, node: Node): seq<T> {
    CollectAll(f, Visit(above, node))
  }

  /** What it has collected after node itself and its first i children. */
  function WalkedUpTo<T>(f: Path -> Option<T>, above: Path, node: Node, i: nat): seq<T>
    requires i <= |node.children|
  {
    if i == 0 then CollectAll(f, [above + [node]])
    else WalkedUpTo(f, above, node, i - 1) + Walked(f, above + [node], node.children[i - 1])
  }

  lemma {:induction false} ChildrenCompleteWalk<T>(f: Path -> Option<T>, above: Path, node: Node, i: nat)
    requires i <= |node.children|
    ensures Walked(f, above, node) == WalkedUpTo(f, above, node, i) + CollectAll(f, VisitFrom(above, node, i))
  {
    if i == 0 {
      CollectOfSum(f, [above + [node]], VisitFrom(above, node, 0));
    } else {
      ChildrenCompleteWalk(f, above, node, i - 1);
      CollectOfSum(f, Visit(above + [node], node.children[i - 1]), VisitFrom(above, node, i));
      Regroup(Walked(f, above, node), WalkedUpTo(f, above, node, i - 1), Walked(f, above + [node], node.children[i - 1]),
              CollectAll(f, VisitFrom(above, node, i)), WalkedUpTo(f, above, node, i), CollectAll(f, VisitFrom(above, node, i - 1)));
    }
  }

  lemma WalkIsComplete<T>(f: Path -> Option<T>, above: Path, node: Node)
    ensures WalkedUpTo(f, above, node, |node.children|) == Walked(f, above, node)
  {
    ChildrenCompleteWalk(f, above, node, |node.children|);
    assert CollectAll(f, []) == [];
  }

  // ----- ancestors -----

  /** Every occurrence of the walk continues above, and each node is a child of the one before it. */
  predicate Descends(path: Path) {
    forall k :: 0 < k < |path| ==> path[k] in path[k - 1].children
  }

  lemma DescendsDown(path: Path, child: Node)
    requires Descends(path) && path != [] && child in path[|path| - 1].children
    ensures Descends(path + [child])
  {
    var down := path + [child];
    forall k | 0 < k < |down| ensures down[k] in down[k - 1].children {
      assert down[k - 1] == path[k - 1];
    }
  }

  lemma {:induction false} VisitDescends(above: Path, node: Node, j: nat)
    requires Descends(above + [node]) && j < |Visit(above, node)|
    ensures above + [node] <= Visit(above, node)[j]
    ensures Descends(Visit(above, node)[j])
    decreases node, |node.children| + 1
  {
    if j == 0 {
    } else {
      VisitFromDescends(above, node, 0, j - 1);
    }
  }

  lemma {:induction false} VisitFromDescends(above: Path, node: Node, i: nat, j: nat)
    requires Descends(above + [node]) && i <= |node.children| && j < |VisitFrom(above, node, i)|
    ensures above + [node] <= VisitFrom(above, node, i)[j]
    ensures Descends(VisitFrom(above, node, i)[j])
    decreases node, |node.children| - i
  {
    var child := node.children[i];
    var first := Visit(above + [node], child);
    if j < |first| {
      DescendsDown(above + [node], child);
      VisitDescends(above + [node], child, j);
    } else {
      VisitFromDescends(above, node, i + 1, j - |first|);
    }
  }

  /** In preorder an ancestor comes before its descendants. */
  lemma {:induction false} AncestorComesFirst(above: Path, node: Node, j: nat, k: nat) returns (i: nat)
    requires Descends(above + [node]) && j < |Visit(above, node)| && |above| < k < |Visit(above, node)[j]|
    ensures i < j && Visit(above, node)[i] == Visit(above, node)[j][..k]
    decreases node, |node.children| + 1
  {
    VisitDescends(above, node, j);
    if k == |above| + 1 {
      i := 0;
    } else {
      var m := AncestorComesFirstFrom(above, node, 0, j - 1, k);
      i := m + 1;
    }
  }

  lemma {:induction false} AncestorComesFirstFrom(above: Path, node: Node, c: nat, j: nat, k: nat) returns (i: nat)
    requires Descends(above + [node]) && c <= |node.children| && j < |VisitFrom(above, node, c)|
    requires |above| + 1 < k < |VisitFrom(above, node, c)[j]|
    ensures i < j && VisitFrom(above, node, c)[i] == VisitFrom(above, node, c)[j][..k]
    decreases node, |node.children| - c
  {
    var child := node.children[c];
    var first := Visit(above + [node], child);
    if j < |first| {
      DescendsDown(above + [node], child);
      i := AncestorComesFirst(above + [node], child, j, k);
    } else {
      var m := AncestorComesFirstFrom(above, node, c + 1, j - |first|, k);
      i := m + |first|;
    }
  }

  /** path goes from above and node down to some node, from child to child. */
  predicate IsOccurrence(above: Path, node: Node, path: Path) {
    above + [node] <= path && forall k :: |above| < k + 1 < |path| ==> path[k + 1] in path[k].children
  }

  ghost predicate IsBelow(above: Path, node: Node, i: nat, path: Path) {
    exists c :: i <= c < |node.children| && IsOccurrence(above + [node], node.children[c], path)
  }

  lemma OccurrenceStep(above: Path, node: Node, path: Path)
    ensures IsOccurrence(above, node, path) <==> path == above + [node] || IsBelow(above, node, 0, path)
  {
    var here := above + [node];
    if IsOccurrence(above, node, path) && path != here {
      assert path[|above|] == here[|above|] == node;
      assert path[|here|] in path[|here| - 1].children;
      var c :| 0 <= c < |node.children| && node.children[c] == path[|here|];
      assert here + [node.children[c]] <= path;
      assert IsOccurrence(here, node.children[c], path);
    }
    if c :| 0 <= c < |node.children| && IsOccurrence(here, node.children[c], path) {
      var down := here + [node.children[c]];
      assert path[|above|] == down[|above|] == node && path[|here|] == down[|here|] == node.children[c];
      assert here <= path;
    }
  }

  /** The preorder visits exactly the occurrences below the root. */
  lemma {:induction false} VisitsAll(above: Path, node: Node, path: Path)
    ensures path in Visit(above, node) <==> IsOccurrence(above, node, path)
    decreases node, |node.children| + 1
  {
    OccurrenceStep(above, node, path);
    VisitsFrom(above, node, 0, path);
  }

  lemma {:induction false} VisitsFrom(above: Path, node: Node, i: nat, path: Path)
    requires i <= |node.children|
    ensures path in VisitFrom(above, node, i) <==> IsBelow(above, node, i, path)
    decreases node, |node.children| - i
  {
    if i == |node.children| {
    } else {
      VisitsAll(above + [node], node.children[i], path);
      VisitsFrom(above, node, i + 1, path);
    }
  }

  // ----- lines -----

  /** What the parser promises: a node's lines are in order and lie within its parent's. */
  ghost predicate WellFormed(node: Node)
    decreases node
  {
    && node.startLine <= node.endLine
    && (forall k :: 0 <= k < |node.children| ==>
                      WellFormed(node.children[k])
                      && node.startLine <= node.children[k].startLine && node.children[k].endLine <= node.endLine)
  }

  predicate Within(inner: Node, outer: Node) {
    outer.startLine <= inner.startLine <= inner.endLine <= outer.endLine
  }

  lemma {:induction false} PathIsWellFormed(path: Path, k: nat)
    requires Descends(path) && k < |path| && WellFormed(path[0])
    ensures WellFormed(path[k])
  {
    if k == 0 {
    } else {
      PathIsWellFormed(path, k - 1);
      assert path[k] in path[k - 1].children;
      var c :| 0 <= c < |path[k - 1].children| && path[k - 1].children[c] == path[k];
    }
  }

  /** Line ranges are nested along ancestry. */
  lemma {:induction false} LinesNest(path: Path, outer: nat, inner: nat)
    requires Descends(path) && outer <= inner < |path| && WellFormed(path[0])
    ensures Within(path[inner], path[outer])
    decreases inner
  {
    PathIsWellFormed(path, inner);
    if outer < inner {
      LinesNest(path, outer, inner - 1);
      PathIsWellFormed(path, inner - 1);
      assert path[inner] in path[inner - 1].children;
      var c :| 0 <= c < |path[inner - 1].children| && path[inner - 1].children[c] == path[inner];
    }
  }

  /** How many frames the recursive walks need. */
  function Height(node: Node): nat
    decreases node, |node.children| + 1
  {
    1 + HeightFrom(node, 0)
  }

  function HeightFrom(node: Node, i: nat): nat
    requires i <= |node.children|
    decreases node, |node.children| - i
  {
    if i == |node.children| then 0
    else
      var here, rest := Height(node.children[i]), HeightFrom(node, i + 1);
      if here > rest then here else rest
  }

  /** That is the length of the longest way down. */
  lemma {:induction false} HeightBounds(above: Path, node: Node, path: Path)
    requires IsOccurrence(above, node, path)
    ensures |path| - |above| <= Height(node)
    decreases node
  {
    OccurrenceStep(above, node, path);
    if path != above + [node] {
      var c :| 0 <= c < |node.children| && IsOccurrence(above + [node], node.children[c], path);
      HeightBounds(above + [node], node.children[c], path);
      HeightOfChild(node, 0, c);
    }
  }

  lemma {:induction false} HeightOfChild(node: Node, i: nat, c: nat)
    requires i <= c < |node.children|
    ensures Height(node.children[c]) <= HeightFrom(node, i)
    decreases c - i
  {
    if i < c { HeightOfChild(node, i + 1, c); }
  }

  lemma {:induction false} HeightReached(above: Path, node: Node) returns (path: Path)
    ensures IsOccurrence(above, node, path) && |path| - |above| == Height(node)
    decreases node, |node.children| + 1
  {
    path := above + [node];
    if node.children != [] {
      path := HeightReachedFrom(above, node, 0);
      OccurrenceStep(above, node, path);
    }
  }

  lemma {:induction false} HeightReachedFrom(above: Path, node: Node, i: nat) returns (path: Path)
    requires i < |node.children|
    ensures IsBelow(above, node, i, path) && |path| - |above| == 1 + HeightFrom(node, i)
    decreases node, |node.children| - i
  {
    path := HeightReached(above + [node], node.children[i]);
    if i + 1 < |node.children| {
      var other := HeightReachedFrom(above, node, i + 1);
      if |other| > |path| { path := other; }
    }
  }
}
