/** Parsing a printed patch gives its ranges and the position of every line it shows. */
module DiffTheorems {
  import opened Wrappers
  import opened Text
  import opened UnifiedDiff

  lemma {:induction false} FoldAppend(path: string, a: seq<Kind>, b: seq<Kind>, i: nat, st: State)
    ensures Fold(path, a + b, i, st) == Fold(path, b, i + |a|, Fold(path, a, i, st))
    decreases |a|
  {
    if a == [] {
      assert a + b == b;
    } else {
      FoldAppend(path, a[1..], b, i + 1, Step(path, a[0], i, st));
      assert (a + b)[0] == a[0] && (a + b)[1..] == a[1..] + b;
    }
  }

  // ----- one hunk -----

  function BodyKinds(body: seq<BodyLine>): (kinds: seq<Kind>)
    ensures |kinds| == |body| && forall k :: 0 <= k < |body| ==> kinds[k] == KindOf(body[k])
  {
    seq(|body|, k requires 0 <= k < |body| => KindOf(body[k]))
  }

  /** The positions of the new-file lines of a body whose first line has position i. */
  function Marks(body: seq<BodyLine>, i: nat, line: nat): map<nat, nat> {
    if body == [] then map[]
    else if InNewFile(body[0]) then Marks(body[1..], i + 1, line + 1)[line := i]
    else Marks(body[1..], i + 1, line)
  }

  lemma {:induction false} MarkKey(body: seq<BodyLine>, i: nat, line: nat, l: nat)
    ensures l in Marks(body, i, line) <==> line <= l < line + |NewSide(body)|
    decreases |body|
  {
    if body == [] {
    } else {
      MarkKey(body[1..], i + 1, if InNewFile(body[0]) then line + 1 else line, l);
    }
  }

  /** Position p of a body at i shows the body's k-th new-file line. */
  ghost predicate MarkOk(p: nat, body: seq<BodyLine>, i: nat, k: nat) {
    i <= p < i + |body| && InNewFile(body[p - i]) && k < |NewSide(body)| && body[p - i].text == NewSide(body)[k]
  }

  lemma {:induction false} MarkShows(body: seq<BodyLine>, i: nat, line: nat, l: nat)
    requires l in Marks(body, i, line)
    ensures line <= l && MarkOk(Marks(body, i, line)[l], body, i, l - line)
    decreases |body|
  {
    MarkKey(body, i, line, l);
    if !InNewFile(body[0]) {
      MarkShows(body[1..], i + 1, line, l);
    } else if l != line {
      MarkShows(body[1..], i + 1, line + 1, l);
    }
  }

  lemma {:induction false} MarksRise(body: seq<BodyLine>, i: nat, line: nat, l: nat, m: nat)
    requires l in Marks(body, i, line) && m in Marks(body, i, line) && l < m
    ensures Marks(body, i, line)[l] < Marks(body, i, line)[m]
    decreases |body|
  {
    MarkKey(body, i, line, l);
    if !InNewFile(body[0]) {
      MarksRise(body[1..], i + 1, line, l, m);
    } else if l == line {
      MarkShows(body[1..], i + 1, line + 1, m);
    } else {
      MarksRise(body[1..], i + 1, line + 1, l, m);
    }
  }

  lemma {:induction false} MarksSize(body: seq<BodyLine>, i: nat, line: nat)
    ensures |Marks(body, i, line)| == |NewSide(body)|
    decreases |body|
  {
    if body == [] {
    } else {
      MarksSize(body[1..], i + 1, if InNewFile(body[0]) then line + 1 else line);
      MarkKey(body[1..], i + 1, line + 1, line);
    }
  }

  lemma FoldFirst(path: string, body: seq<BodyLine>, i: nat, st: State)
    requires body != []
    ensures Fold(path, BodyKinds(body), i, st)
         == Fold(path, BodyKinds(body[1..]), i + 1, Step(path, KindOf(body[0]), i, st))
  {
    assert BodyKinds(body)[1..] == BodyKinds(body[1..]);
  }

  lemma {:induction false} FoldBody(path: string, body: seq<BodyLine>, i: nat, st: State)
    ensures Fold(path, BodyKinds(body), i, st)
         == State(st.ranges, st.positions + Marks(body, i, st.currentNewLine), st.currentNewLine + |NewSide(body)|)
    decreases |body|
  {
    if body == [] {
      assert st.positions + map[] == st.positions;
    } else {
      var line := st.currentNewLine;
      FoldFirst(path, body, i, st);
      if InNewFile(body[0]) {
        FoldBody(path, body[1..], i + 1, State(st.ranges, st.positions[line := i], line + 1));
        MarkKey(body[1..], i + 1, line + 1, line);
        UpdateUnion(st.positions, Marks(body[1..], i + 1, line + 1), line, i);
      } else {
        FoldBody(path, body[1..], i + 1, st);
      }
    }
  }

  lemma UpdateUnion(m: map<nat, nat>, n: map<nat, nat>, key: nat, value: nat)
    requires key !in n
    ensures m[key := value] + n == m + n[key := value]
  {}

  lemma FoldHunk(path: string, h: Hunk, i: nat, st: State)
    ensures Fold(path, HunkKinds(h), i, st)
         == State(if h.newLines > 0 then st.ranges + [LineRange(path, h.newStart, h.newStart + h.newLines - 1)] else st.ranges,
                  st.positions + Marks(h.body, i + 1, h.newStart), h.newStart + |NewSide(h.body)|)
  {
    assert HunkKinds(h)[1..] == BodyKinds(h.body);
    FoldBody(path, h.body, i + 1, Step(path, Header(h.newStart, h.newLines), i, st));
  }

  // ----- a whole patch -----

  function HunkKinds(h: Hunk): seq<Kind> {
    [Header(h.newStart, h.newLines)] + BodyKinds(h.body)
  }

  function PatchKinds(hs: seq<Hunk>, n: nat): seq<Kind>
    requires n <= |hs|
  {
    if n == 0 then [] else PatchKinds(hs, n - 1) + HunkKinds(hs[n - 1])
  }

  lemma KindsAppend(a: seq<string>, b: seq<string>)
    ensures Kinds(a + b) == Kinds(a) + Kinds(b)
  {}

  lemma PrintedHunkKinds(h: Hunk)
    ensures Kinds(HunkLines(h)) == HunkKinds(h)
  {
    HeaderRoundTrip(h);
    forall k | 0 <= k < |h.body| ensures Classify(PrintBody(h.body)[k]) == BodyKinds(h.body)[k] {
      PrintedLineKind(h.body[k]);
    }
    KindsAppend([PrintHeader(h)], PrintBody(h.body));
    assert Kinds([PrintHeader(h)]) == [Header(h.newStart, h.newLines)];
    assert Kinds(PrintBody(h.body)) == BodyKinds(h.body);
  }

  lemma PrintedKinds(hs: seq<Hunk>, n: nat)
    requires n <= |hs|
    ensures Kinds(PatchLines(hs, n)) == PatchKinds(hs, n)
  {
    for k := 0 to n
      invariant Kinds(PatchLines(hs, k)) == PatchKinds(hs, k)
    {
      NextKinds(hs, k);
    }
  }

  lemma NextKinds(hs: seq<Hunk>, k: nat)
    requires k < |hs| && Kinds(PatchLines(hs, k)) == PatchKinds(hs, k)
    ensures Kinds(PatchLines(hs, k + 1)) == PatchKinds(hs, k + 1)
  {
    PrintedHunkKinds(hs[k]);
    JoinKinds(PatchLines(hs, k), HunkLines(hs[k]), PatchKinds(hs, k), HunkKinds(hs[k]));
  }

  lemma JoinKinds(a: seq<string>, b: seq<string>, kindsA: seq<Kind>, kindsB: seq<Kind>)
    requires Kinds(a) == kindsA && Kinds(b) == kindsB
    ensures Kinds(a + b) == kindsA + kindsB
  {
    KindsAppend(a, b);
  }

  /** The ranges of the first n hunks. */
  function RangesOf(path: string, hs: seq<Hunk>, n: nat): seq<LineRange>
    requires n <= |hs|
  {
    if n == 0 then []
    else
      var h := hs[n - 1];
      var before := RangesOf(path, hs, n - 1);
      if h.newLines > 0 then before + [LineRange(path, h.newStart, h.newStart + h.newLines - 1)] else before
  }

  /** The number of patch lines of the first n hunks. */
  function Offset(hs: seq<Hunk>, n: nat): nat
    requires n <= |hs|
  {
    if n == 0 then 0 else Offset(hs, n - 1) + 1 + |hs[n - 1].body|
  }

  lemma {:induction false} KindsLength(hs: seq<Hunk>, n: nat)
    requires n <= |hs|
    ensures |PatchKinds(hs, n)| == Offset(hs, n)
  {
    if n == 0 {
    } else {
      KindsLength(hs, n - 1);
    }
  }

  lemma PatchLength(hs: seq<Hunk>, n: nat)
    requires n <= |hs|
    ensures |PatchLines(hs, n)| == Offset(hs, n)
  {
    PrintedKinds(hs, n);
    KindsLength(hs, n);
  }

  function MarksOf(hs: seq<Hunk>, k: nat): map<nat, nat>
    requires k < |hs|
  {
    Marks(hs[k].body, Offset(hs, k) + 1, hs[k].newStart)
  }

  function Positions(hs: seq<Hunk>, n: nat): map<nat, nat>
    requires n <= |hs|
  {
    if n == 0 then map[] else Positions(hs, n - 1) + MarksOf(hs, n - 1)
  }

  lemma FoldNextHunk(path: string, before: seq<Kind>, h: Hunk)
    ensures var st, after := Fold(path, before, 0, START), Fold(path, before + HunkKinds(h), 0, START);
            after.positions == st.positions + Marks(h.body, |before| + 1, h.newStart)
            && after.ranges == if h.newLines > 0 then st.ranges + [LineRange(path, h.newStart, h.newStart + h.newLines - 1)]
                               else st.ranges
  {
    FoldAppend(path, before, HunkKinds(h), 0, START);
    FoldHunk(path, h, |before|, Fold(path, before, 0, START));
  }

  lemma {:induction false} ParsePatchKinds(path: string, hs: seq<Hunk>, n: nat)
    requires n <= |hs|
    ensures Fold(path, PatchKinds(hs, n), 0, START).ranges == RangesOf(path, hs, n)
    ensures Fold(path, PatchKinds(hs, n), 0, START).positions == Positions(hs, n)
  {
    if n == 0 {
    } else {
      ParsePatchKinds(path, hs, n - 1);
      ParseNextHunk(path, hs, n);
    }
  }

  lemma ParseNextHunk(path: string, hs: seq<Hunk>, n: nat)
    requires 0 < n <= |hs|
    requires Fold(path, PatchKinds(hs, n - 1), 0, START).ranges == RangesOf(path, hs, n - 1)
    requires Fold(path, PatchKinds(hs, n - 1), 0, START).positions == Positions(hs, n - 1)
    ensures Fold(path, PatchKinds(hs, n), 0, START).ranges == RangesOf(path, hs, n)
    ensures Fold(path, PatchKinds(hs, n), 0, START).positions == Positions(hs, n)
  {
    var kinds := PatchKinds(hs, n - 1);
    KindsLength(hs, n - 1);
    FoldNextHunk(path, kinds, hs[n - 1]);
    assert PatchKinds(hs, n) == kinds + HunkKinds(hs[n - 1]);
  }

  predicate InHunk(h: Hunk, l: nat) {
    h.newStart <= l < h.newStart + h.newLines
  }

  ghost predicate InSomeHunk(hs: seq<Hunk>, n: nat, l: nat)
    requires n <= |hs|
  {
    exists k :: 0 <= k < n && InHunk(hs[k], l)
  }

  /** The patch line shows a line of the new file: a context or an added line with its text. */
  predicate Shows(patchLine: string, text: string) {
    patchLine == " " + text || patchLine == "+" + text
  }

  ghost predicate ShownAt(h: Hunk, l: nat, lines: seq<string>, p: nat) {
    InHunk(h, l) && l - h.newStart < |NewSide(h.body)| && 0 < p < |lines|
    && Shows(lines[p], NewSide(h.body)[l - h.newStart])
  }

  ghost predicate Rising(m: map<nat, nat>) {
    forall a, b :: a in m && b in m && a < b ==> m[a] < m[b]
  }

  ghost predicate Renders(hs: seq<Hunk>, lines: seq<string>, positions: map<nat, nat>) {
    && (forall l :: l in positions <==> InSomeHunk(hs, |hs|, l))
    && (forall k, l :: 0 <= k < |hs| && InHunk(hs[k], l) ==> l in positions && ShownAt(hs[k], l, lines, positions[l]))
    && Rising(positions)
  }

  lemma MarkOfKey(hs: seq<Hunk>, k: nat, l: nat)
    requires k < |hs| && WellFormed(hs[k])
    ensures l in MarksOf(hs, k) <==> InHunk(hs[k], l)
  {
    MarkKey(hs[k].body, Offset(hs, k) + 1, hs[k].newStart, l);
  }

  lemma {:induction false} PositionKey(hs: seq<Hunk>, n: nat, l: nat)
    requires n <= |hs| && WellFormedHunks(hs)
    ensures l in Positions(hs, n) <==> InSomeHunk(hs, n, l)
  {
    if n == 0 {
    } else {
      PositionKey(hs, n - 1, l);
      MarkOfKey(hs, n - 1, l);
    }
  }

  /** A hunk's lines come after all lines of the hunks before it. */
  lemma LaterHunk(hs: seq<Hunk>, n: nat, l: nat, m: nat)
    requires 0 < n <= |hs| && WellFormedHunks(hs)
    requires l in Positions(hs, n - 1) && m in MarksOf(hs, n - 1)
    ensures l < m
  {
    PositionKey(hs, n - 1, l);
    MarkOfKey(hs, n - 1, m);
    var k :| 0 <= k < n - 1 && InHunk(hs[k], l);
  }

  lemma NotInBoth(hs: seq<Hunk>, n: nat, l: nat)
    requires 0 < n <= |hs| && WellFormedHunks(hs)
    requires l in Positions(hs, n - 1)
    ensures l !in MarksOf(hs, n - 1)
  {
    if l in MarksOf(hs, n - 1) { LaterHunk(hs, n, l, l); }
  }

  lemma {:induction false} PositionBound(hs: seq<Hunk>, n: nat, l: nat)
    requires n <= |hs| && l in Positions(hs, n)
    ensures Positions(hs, n)[l] < Offset(hs, n)
  {
    if l in MarksOf(hs, n - 1) {
      MarkShows(hs[n - 1].body, Offset(hs, n - 1) + 1, hs[n - 1].newStart, l);
    } else {
      PositionBound(hs, n - 1, l);
    }
  }

  lemma {:induction false} PositionsRise(hs: seq<Hunk>, n: nat, l: nat, m: nat)
    requires n <= |hs| && WellFormedHunks(hs)
    requires l in Positions(hs, n) && m in Positions(hs, n) && l < m
    ensures Positions(hs, n)[l] < Positions(hs, n)[m]
  {
    var marks := MarksOf(hs, n - 1);
    if m in marks {
      MarkShows(hs[n - 1].body, Offset(hs, n - 1) + 1, hs[n - 1].newStart, m);
      if l in marks {
        MarksRise(hs[n - 1].body, Offset(hs, n - 1) + 1, hs[n - 1].newStart, l, m);
      } else {
        PositionBound(hs, n - 1, l);
      }
    } else if l in marks {
      LaterHunk(hs, n, m, l);
    } else {
      PositionsRise(hs, n - 1, l, m);
    }
  }

  lemma {:induction false} PositionsSize(hs: seq<Hunk>, n: nat)
    requires n <= |hs| && WellFormedHunks(hs)
    ensures |Positions(hs, n)| == NewLineCount(hs, n)
  {
    for k := 0 to n
      invariant |Positions(hs, k)| == NewLineCount(hs, k)
    {
      MarkOfSize(hs, k);
      NoneInBoth(hs, k + 1);
      SizeStep(hs, k + 1);
    }
  }

  lemma SizeStep(hs: seq<Hunk>, n: nat)
    requires 0 < n <= |hs| && Positions(hs, n - 1).Keys !! MarksOf(hs, n - 1).Keys
    ensures |Positions(hs, n)| == |Positions(hs, n - 1)| + |MarksOf(hs, n - 1)|
  {
    DisjointSize(Positions(hs, n - 1), MarksOf(hs, n - 1));
  }

  lemma MarkOfSize(hs: seq<Hunk>, k: nat)
    requires k < |hs| && WellFormed(hs[k])
    ensures |MarksOf(hs, k)| == hs[k].newLines
  {
    MarksSize(hs[k].body, Offset(hs, k) + 1, hs[k].newStart);
  }

  lemma NoneInBoth(hs: seq<Hunk>, n: nat)
    requires 0 < n <= |hs| && WellFormedHunks(hs)
    ensures Positions(hs, n - 1).Keys !! MarksOf(hs, n - 1).Keys
  {
    var earlier, marks := Positions(hs, n - 1), MarksOf(hs, n - 1);
    forall l | l in earlier ensures l !in marks { NotInBoth(hs, n, l); }
  }

  lemma DisjointSize(m: map<nat, nat>, n: map<nat, nat>)
    requires m.Keys !! n.Keys
    ensures |m + n| == |m| + |n|
  {
    assert (m + n).Keys == m.Keys + n.Keys;
    assert |(m + n).Keys| == |m.Keys| + |n.Keys|;
  }

  lemma {:induction false} PositionsShow(hs: seq<Hunk>, n: nat, k: nat, l: nat)
    requires k < n <= |hs| && WellFormedHunks(hs)
    requires InHunk(hs[k], l)
    ensures l in Positions(hs, n) && ShownAt(hs[k], l, PatchLines(hs, n), Positions(hs, n)[l])
  {
    if k < n - 1 {
      PositionsShow(hs, n - 1, k, l);
      NotInBoth(hs, n, l);
      PositionBound(hs, n - 1, l);
      EarlierLines(hs, n, Positions(hs, n - 1)[l]);
    } else {
      LastHunkShows(hs, n, l);
    }
  }

  lemma LastHunkShows(hs: seq<Hunk>, n: nat, l: nat)
    requires 0 < n <= |hs| && WellFormed(hs[n - 1]) && InHunk(hs[n - 1], l)
    ensures l in MarksOf(hs, n - 1) && ShownAt(hs[n - 1], l, PatchLines(hs, n), MarksOf(hs, n - 1)[l])
  {
    var h, before, lines := hs[n - 1], Offset(hs, n - 1), PatchLines(hs, n);
    forall q: nat ensures PrintedAt(h, before, lines, q) {
      if before < q <= before + |h.body| { BodyLineOfPatch(hs, n, q); }
    }
    PrintedHunkShows(h, l, before, lines);
  }

  /** Line q of a patch is the one of the hunk that comes there when its header is line `before`. */
  predicate PrintedAt(h: Hunk, before: nat, lines: seq<string>, q: nat) {
    before < q <= before + |h.body| ==> q < |lines| && lines[q] == PrintLine(h.body[q - before - 1])
  }

  lemma PrintedHunkShows(h: Hunk, l: nat, before: nat, lines: seq<string>)
    requires WellFormed(h) && InHunk(h, l)
    requires forall q: nat :: PrintedAt(h, before, lines, q)
    ensures var marks := Marks(h.body, before + 1, h.newStart); l in marks && ShownAt(h, l, lines, marks[l])
  {
    var p, line := MarkNamesItsLine(h, l, before);
    assert PrintedAt(h, before, lines, p);
  }

  /** The position at which a hunk after that many lines marks l, and the printed line there. */
  lemma MarkNamesItsLine(h: Hunk, l: nat, before: nat) returns (p: nat, line: string)
    requires WellFormed(h) && InHunk(h, l)
    ensures l in Marks(h.body, before + 1, h.newStart) && Marks(h.body, before + 1, h.newStart)[l] == p
    ensures before < p <= before + |h.body| && line == PrintLine(h.body[p - before - 1])
    ensures l - h.newStart < |NewSide(h.body)| && Shows(line, NewSide(h.body)[l - h.newStart])
  {
    MarkKey(h.body, before + 1, h.newStart, l);
    MarkShows(h.body, before + 1, h.newStart, l);
    p := Marks(h.body, before + 1, h.newStart)[l];
    line := PrintLine(h.body[p - before - 1]);
    NewLineIsShown(h.body[p - before - 1]);
  }

  lemma NewLineIsShown(b: BodyLine)
    requires InNewFile(b)
    ensures Shows(PrintLine(b), b.text)
  {}

  lemma BodyLineOfPatch(hs: seq<Hunk>, n: nat, p: nat)
    requires 0 < n <= |hs| && Offset(hs, n - 1) < p <= Offset(hs, n - 1) + |hs[n - 1].body|
    ensures p < |PatchLines(hs, n)| && PatchLines(hs, n)[p] == PrintLine(hs[n - 1].body[p - Offset(hs, n - 1) - 1])
  {
    LaterLines(hs, n, p);
    assert PrintBody(hs[n - 1].body)[p - Offset(hs, n - 1) - 1] == PrintLine(hs[n - 1].body[p - Offset(hs, n - 1) - 1]);
  }

  lemma FirstPart(a: seq<string>, b: seq<string>, p: nat)
    requires p < |a|
    ensures (a + b)[p] == a[p]
  {}

  lemma EarlierLines(hs: seq<Hunk>, n: nat, p: nat)
    requires 0 < n <= |hs| && p < Offset(hs, n - 1)
    ensures p < |PatchLines(hs, n - 1)| && p < |PatchLines(hs, n)| && PatchLines(hs, n)[p] == PatchLines(hs, n - 1)[p]
  {
    PatchLength(hs, n - 1);
    FirstPart(PatchLines(hs, n - 1), HunkLines(hs[n - 1]), p);
  }

  lemma LaterLines(hs: seq<Hunk>, n: nat, p: nat)
    requires 0 < n <= |hs| && Offset(hs, n - 1) <= p < Offset(hs, n)
    ensures p < |PatchLines(hs, n)| && PatchLines(hs, n)[p] == HunkLines(hs[n - 1])[p - Offset(hs, n - 1)]
  {
    PatchLength(hs, n - 1);
  }

  function NewLineCount(hs: seq<Hunk>, n: nat): nat
    requires n <= |hs|
  {
    if n == 0 then 0 else NewLineCount(hs, n - 1) + hs[n - 1].newLines
  }

  lemma HeaderIsOneLine(h: Hunk)
    requires OneLine(h.section)
    ensures OneLine(PrintHeader(h))
  {
    DecimalIsOneLine(h.oldStart);
    DecimalIsOneLine(h.oldLines);
    DecimalIsOneLine(h.newStart);
    DecimalIsOneLine(h.newLines);
    var tail := " @@" + h.section;
    var after := " +" + (PrintRange(h.newStart, h.newLines, h.shortNew) + tail);
    assert OneLine(tail) && OneLine(after);
  }

  predicate AllOneLine(lines: seq<string>) {
    forall k :: 0 <= k < |lines| ==> OneLine(lines[k])
  }

  lemma JoinOneLine(a: seq<string>, b: seq<string>)
    requires AllOneLine(a) && AllOneLine(b)
    ensures AllOneLine(a + b)
  {}

  lemma HunkLinesAreLines(h: Hunk)
    requires WellFormed(h)
    ensures AllOneLine(HunkLines(h))
  {
    HeaderIsOneLine(h);
  }

  lemma PatchLinesAreLines(hs: seq<Hunk>, n: nat)
    requires n <= |hs| && WellFormedHunks(hs)
    ensures AllOneLine(PatchLines(hs, n))
    ensures n > 0 ==> PatchLines(hs, n) != []
  {
    for k := 0 to n
      invariant AllOneLine(PatchLines(hs, k))
    {
      NextLinesAreLines(hs, k);
    }
    PatchIsNotEmpty(hs, n);
  }

  lemma PatchIsNotEmpty(hs: seq<Hunk>, n: nat)
    requires n <= |hs|
    ensures n > 0 ==> PatchLines(hs, n) != []
  {
    PatchLength(hs, n);
  }

  lemma NextLinesAreLines(hs: seq<Hunk>, k: nat)
    requires k < |hs| && WellFormed(hs[k]) && AllOneLine(PatchLines(hs, k))
    ensures AllOneLine(PatchLines(hs, k + 1))
  {
    HunkLinesAreLines(hs[k]);
    JoinOneLine(PatchLines(hs, k), HunkLines(hs[k]));
    assert PatchLines(hs, k + 1) == PatchLines(hs, k) + HunkLines(hs[k]);
  }

  /**
   Round trip: parsing any printed well-formed patch gives one range for each hunk that
   shows new lines, and a position map whose keys are exactly the lines in those ranges,
   whose positions rise with the line number, and whose positions name the patch lines
   that show those new-file lines.
   */
  lemma RoundTrip(path: string, hs: seq<Hunk>)
    requires WellFormedPatch(hs)
    ensures Split(Print(hs)) == PatchLines(hs, |hs|)
    ensures Parse(path, Print(hs)).ranges == RangesOf(path, hs, |hs|)
    ensures Renders(hs, Split(Print(hs)), Parse(path, Print(hs)).positionByNewLine)
    ensures |Parse(path, Print(hs)).positionByNewLine| == NewLineCount(hs, |hs|)
  {
    PatchLinesAreLines(hs, |hs|);
    SplitJoin(PatchLines(hs, |hs|));
    PrintedKinds(hs, |hs|);
    ParsePatchKinds(path, hs, |hs|);
    PositionsSize(hs, |hs|);
    forall l ensures l in Positions(hs, |hs|) <==> InSomeHunk(hs, |hs|, l) { PositionKey(hs, |hs|, l); }
    forall l, m | l in Positions(hs, |hs|) && m in Positions(hs, |hs|) && l < m
      ensures Positions(hs, |hs|)[l] < Positions(hs, |hs|)[m]
    {
      PositionsRise(hs, |hs|, l, m);
    }
    forall k, l | 0 <= k < |hs| && InHunk(hs[k], l)
      ensures l in Positions(hs, |hs|) && ShownAt(hs[k], l, PatchLines(hs, |hs|), Positions(hs, |hs|)[l])
    {
      PositionsShow(hs, |hs|, k, l);
    }
  }

  lemma TrailingNewlineIsHarmless(path: string, hs: seq<Hunk>)
    requires WellFormedPatch(hs)
    ensures Parse(path, Print(hs) + "\n") == Parse(path, Print(hs))
  {
    var lines := PatchLines(hs, |hs|);
    PatchLinesAreLines(hs, |hs|);
    SplitJoin(lines);
    JoinTrailing(lines);
    SplitJoin(lines + [""]);
    KindsAppend(lines, [""]);
    NotAHeader("");
    assert Kinds([""]) == [Hidden];
    FoldAppend(path, Kinds(lines), [Hidden], 0, START);
  }

  // ----- each position exactly -----

  /** Line q of the body is a line of the new file; after i patch lines, with the body's first new line being `line`, that is position p and line l. */
  ghost predicate IsMark(body: seq<BodyLine>, q: nat, i: nat, line: nat, l: nat, p: nat) {
    q < |body| && InNewFile(body[q]) && p == i + q && l == line + |NewSide(body[..q])|
  }

  ghost predicate SomeMark(body: seq<BodyLine>, i: nat, line: nat, l: nat, p: nat) {
    exists q: nat :: IsMark(body, q, i, line, l, p)
  }

  lemma MarkShifts(body: seq<BodyLine>, q: nat, i: nat, line: nat, l: nat, p: nat)
    requires body != [] && q > 0
    ensures IsMark(body, q, i, line, l, p)
            <==> IsMark(body[1..], q - 1, i + 1, if InNewFile(body[0]) then line + 1 else line, l, p)
  {
    if q < |body| {
      assert body[..q][0] == body[0] && body[..q][1..] == body[1..][..q - 1];
    }
  }

  lemma SomeMarkStep(body: seq<BodyLine>, i: nat, line: nat, l: nat, p: nat)
    requires body != []
    ensures SomeMark(body, i, line, l, p)
            <==> (InNewFile(body[0]) && p == i && l == line)
                 || SomeMark(body[1..], i + 1, if InNewFile(body[0]) then line + 1 else line, l, p)
  {
    var next := if InNewFile(body[0]) then line + 1 else line;
    assert body[..0] == [];
    assert IsMark(body, 0, i, line, l, p) <==> InNewFile(body[0]) && p == i && l == line;
    if q: nat :| IsMark(body, q, i, line, l, p) && q > 0 {
      MarkShifts(body, q, i, line, l, p);
    }
    var rest, i' := body[1..], i + 1;
    if q: nat :| IsMark(rest, q, i', next, l, p) {
      MarkShifts(body, q + 1, i, line, l, p);
    }
  }

  lemma {:induction false} MarkIff(body: seq<BodyLine>, i: nat, line: nat, l: nat, p: nat)
    ensures Maps(Marks(body, i, line), l, p) <==> SomeMark(body, i, line, l, p)
    decreases |body|
  {
    if body == [] {
    } else {
      var next := if InNewFile(body[0]) then line + 1 else line;
      SomeMarkStep(body, i, line, l, p);
      MarkIff(body[1..], i + 1, next, l, p);
      MarkKey(body[1..], i + 1, next, line);
    }
  }

  ghost predicate IsPositionIn(hs: seq<Hunk>, k: nat, p: nat, l: nat)
    requires k < |hs|
  {
    SomeMark(hs[k].body, Offset(hs, k) + 1, hs[k].newStart, l, p)
  }

  /** Position p of the patch is line l of the new file: in some hunk, as many new-file lines lie before both. */
  ghost predicate IsPositionOf(hs: seq<Hunk>, n: nat, p: nat, l: nat)
    requires n <= |hs|
  {
    exists k :: 0 <= k < n && IsPositionIn(hs, k, p, l)
  }

  lemma NextHunkPositions(hs: seq<Hunk>, n: nat, p: nat, l: nat)
    requires n < |hs|
    ensures IsPositionOf(hs, n + 1, p, l) <==> IsPositionOf(hs, n, p, l) || IsPositionIn(hs, n, p, l)
  {}

  predicate Maps(m: map<nat, nat>, l: nat, p: nat) {
    l in m && m[l] == p
  }

  lemma MapsUnion(m: map<nat, nat>, n: map<nat, nat>, l: nat, p: nat)
    requires l in m ==> l !in n
    ensures Maps(m + n, l, p) <==> Maps(m, l, p) || Maps(n, l, p)
  {}

  lemma HunkPositionIff(hs: seq<Hunk>, k: nat, p: nat, l: nat)
    requires k < |hs|
    ensures Maps(MarksOf(hs, k), l, p) <==> IsPositionIn(hs, k, p, l)
  {
    MarkIff(hs[k].body, Offset(hs, k) + 1, hs[k].newStart, l, p);
  }

  lemma NextPositions(hs: seq<Hunk>, k: nat, p: nat, l: nat)
    requires k < |hs| && (l in Positions(hs, k) ==> l !in MarksOf(hs, k))
    ensures Maps(Positions(hs, k + 1), l, p) <==> Maps(Positions(hs, k), l, p) || IsPositionIn(hs, k, p, l)
  {
    MapsUnion(Positions(hs, k), MarksOf(hs, k), l, p);
    HunkPositionIff(hs, k, p, l);
  }

  lemma {:induction false} PositionIff(hs: seq<Hunk>, n: nat, p: nat, l: nat)
    requires n <= |hs| && WellFormedHunks(hs)
    ensures Maps(Positions(hs, n), l, p) <==> IsPositionOf(hs, n, p, l)
  {
    for k := 0 to n
      invariant Maps(Positions(hs, k), l, p) <==> IsPositionOf(hs, k, p, l)
    {
      if l in Positions(hs, k) { NotInBoth(hs, k + 1, l); }
      NextPositions(hs, k, p, l);
      NextHunkPositions(hs, k, p, l);
    }
  }

  /** The map of a parsed patch gives line l the position p if and only if p is the position of l in the printed hunks. */
  lemma ParsedPositionIff(path: string, hs: seq<Hunk>, p: nat, l: nat)
    requires WellFormedPatch(hs)
    ensures Maps(Parse(path, Print(hs)).positionByNewLine, l, p) <==> IsPositionOf(hs, |hs|, p, l)
  {
    RoundTrip(path, hs);
    PatchLinesAreLines(hs, |hs|);
    PrintedKinds(hs, |hs|);
    ParsePatchKinds(path, hs, |hs|);
    PositionIff(hs, |hs|, p, l);
  }

  // ----- sizes -----

  /** The reduce at pr-review.service.ts:236. */
  function LinesChanged(ranges: seq<LineRange>): int {
    if ranges == [] then 0
    else LinesChanged(ranges[..|ranges| - 1]) + ranges[|ranges| - 1].endLine - ranges[|ranges| - 1].startLine + 1
  }

  lemma {:induction false} LinesChangedAppend(a: seq<LineRange>, b: seq<LineRange>)
    ensures LinesChanged(a + b) == LinesChanged(a) + LinesChanged(b)
  {
    if b == [] {
      assert a + b == a;
    } else {
      LinesChangedAppend(a, b[..|b| - 1]);
      assert (a + b)[..|a + b| - 1] == a + b[..|b| - 1];
    }
  }

  lemma {:induction false} RangesCountLines(path: string, hs: seq<Hunk>, n: nat)
    requires n <= |hs|
    ensures LinesChanged(RangesOf(path, hs, n)) == NewLineCount(hs, n)
  {
    if n == 0 {
    } else {
      RangesCountLines(path, hs, n - 1);
      if hs[n - 1].newLines > 0 {
        assert RangesOf(path, hs, n)[..|RangesOf(path, hs, n)| - 1] == RangesOf(path, hs, n - 1);
      }
    }
  }

  /** For one file: the lines changed are the size of its position map. */
  lemma OneFileConserves(path: string, hs: seq<Hunk>)
    requires WellFormedPatch(hs)
    ensures LinesChanged(Parse(path, Print(hs)).ranges) == |Parse(path, Print(hs)).positionByNewLine|
  {
    RoundTrip(path, hs);
    RangesCountLines(path, hs, |hs|);
  }
}
