/**
 From the compare API's files to what the review needs: getPrDiff
 (github-diff.service.ts) and the chunks that the changed ranges touch
 (diff-analyzer.service.ts).
 */
module PrDiff {
  import opened Wrappers
  import opened Text
  import opened UnifiedDiff
  import opened DiffTheorems

  datatype DiffFile = DiffFile(path: string, status: string, patch: Option<string>)
  datatype DiffResult = DiffResult(changedRanges: seq<LineRange>, positions: map<string, map<nat, nat>>)

  /** Removed files and files without a patch are skipped; an empty patch counts as none. */
  predicate Included(f: DiffFile) {
    f.status != "removed" && f.patch.Some? && f.patch.value != ""
  }

  /** The result after the first n files, given what each parses to. */
  function Collected(files: seq<DiffFile>, parsed: seq<ParsedDiff>, n: nat): DiffResult
    requires n <= |files| == |parsed|
  {
    if n == 0 then DiffResult([], map[])
    else
      var before, f := Collected(files, parsed, n - 1), files[n - 1];
      if !Included(f) then before
      else DiffResult(before.changedRanges + parsed[n - 1].ranges,
                      before.positions[f.path := parsed[n - 1].positionByNewLine])
  }

  function ParseAll(files: seq<DiffFile>): (parsed: seq<ParsedDiff>)
    ensures |parsed| == |files|
    ensures forall k :: 0 <= k < |files| && Included(files[k]) ==>
              parsed[k] == Parse(files[k].path, files[k].patch.value)
  {
    seq(|files|, k requires 0 <= k < |files| =>
      if Included(files[k]) then Parse(files[k].path, files[k].patch.value) else ParsedDiff([], map[]))
  }

  function PrDiffOf(files: seq<DiffFile>): DiffResult {
    Collected(files, ParseAll(files), |files|)
  }

  // ----- the answer, file by file -----

  predicate HasPatch(f: DiffFile) {
    f.patch.Some? && f.patch.value != ""
  }

  /** The file is still there and has a text to parse. */
  predicate IsKept(f: DiffFile) {
    f.status != "removed" && HasPatch(f)
  }

  predicate AreParsed(files: seq<DiffFile>, parsed: seq<ParsedDiff>) {
    |parsed| == |files|
    && forall i :: 0 <= i < |files| && IsKept(files[i]) ==> parsed[i] == Parse(files[i].path, files[i].patch.value)
  }

  /** How many ranges the first n files have. */
  function RangeCount(files: seq<DiffFile>, parsed: seq<ParsedDiff>, n: nat): nat
    requires n <= |files| == |parsed|
  {
    if n == 0 then 0
    else RangeCount(files, parsed, n - 1) + if IsKept(files[n - 1]) then |parsed[n - 1].ranges| else 0
  }

  /** The k-th range of file i stands where the earlier files leave it. */
  predicate RangeAt(files: seq<DiffFile>, parsed: seq<ParsedDiff>, ranges: seq<LineRange>, i: nat, k: nat)
    requires i < |files| == |parsed| && k < |parsed[i].ranges|
  {
    var at := RangeCount(files, parsed, i) + k;
    at < |ranges| && ranges[at] == parsed[i].ranges[k]
  }

  /** The ranges of the first n files, one file after the other. */
  ghost predicate RangesInOrder(files: seq<DiffFile>, parsed: seq<ParsedDiff>, n: nat, ranges: seq<LineRange>)
    requires n <= |files| == |parsed|
  {
    && |ranges| == RangeCount(files, parsed, n)
    && forall i: nat, k: nat :: i < n && IsKept(files[i]) && k < |parsed[i].ranges| ==> RangeAt(files, parsed, ranges, i, k)
  }

  /** File i is the last of the first n that is kept under this path. */
  predicate IsLastKept(files: seq<DiffFile>, n: nat, path: string, i: nat)
    requires n <= |files|
  {
    i < n && IsKept(files[i]) && files[i].path == path
    && forall j :: i < j < n && IsKept(files[j]) ==> files[j].path != path
  }

  /** What a path has among the first n files: the positions of the last kept one under it. */
  ghost predicate PathHas(files: seq<DiffFile>, parsed: seq<ParsedDiff>, n: nat, path: string, m: Option<map<nat, nat>>)
    requires n <= |files| == |parsed|
  {
    match m
    case Some(positions) => exists i: nat :: IsLastKept(files, n, path, i) && positions == parsed[i].positionByNewLine
    case None => forall i: nat :: i < n && IsKept(files[i]) ==> files[i].path != path
  }

  function Get(m: map<string, map<nat, nat>>, path: string): Option<map<nat, nat>> {
    if path in m then Some(m[path]) else None
  }

  /** The answer for the files: their ranges in order, and for each path its last file's positions. */
  ghost predicate IsDiffOf(files: seq<DiffFile>, r: DiffResult) {
    exists parsed :: AreParsed(files, parsed) && RangesInOrder(files, parsed, |files|, r.changedRanges)
                     && forall path :: PathHas(files, parsed, |files|, path, Get(r.positions, path))
  }

  lemma NextRanges(files: seq<DiffFile>, parsed: seq<ParsedDiff>, n: nat, ranges: seq<LineRange>)
    requires n < |files| == |parsed| && RangesInOrder(files, parsed, n, ranges)
    ensures RangesInOrder(files, parsed, n + 1, if IsKept(files[n]) then ranges + parsed[n].ranges else ranges)
  {
    var next := if IsKept(files[n]) then ranges + parsed[n].ranges else ranges;
    forall i: nat, k: nat | i < n + 1 && IsKept(files[i]) && k < |parsed[i].ranges|
      ensures RangeAt(files, parsed, next, i, k)
    {
      if i < n { assert RangeAt(files, parsed, ranges, i, k); }
    }
  }

  lemma NextPath(files: seq<DiffFile>, parsed: seq<ParsedDiff>, n: nat, path: string, m: Option<map<nat, nat>>)
    requires n < |files| == |parsed| && PathHas(files, parsed, n, path, m)
    ensures PathHas(files, parsed, n + 1, path,
              if IsKept(files[n]) && files[n].path == path then Some(parsed[n].positionByNewLine) else m)
  {
    if IsKept(files[n]) && files[n].path == path {
      assert IsLastKept(files, n + 1, path, n);
    } else if m.Some? {
      var i: nat :| IsLastKept(files, n, path, i) && m.value == parsed[i].positionByNewLine;
      assert IsLastKept(files, n + 1, path, i);
    }
  }

  lemma {:induction false} DiffRanges(files: seq<DiffFile>, parsed: seq<ParsedDiff>)
    requires |files| == |parsed|
    ensures RangesInOrder(files, parsed, |files|, Collected(files, parsed, |files|).changedRanges)
  {
    for n := 0 to |files|
      invariant RangesInOrder(files, parsed, n, Collected(files, parsed, n).changedRanges)
    {
      NextRanges(files, parsed, n, Collected(files, parsed, n).changedRanges);
    }
  }

  lemma {:induction false} DiffPositions(files: seq<DiffFile>, parsed: seq<ParsedDiff>, path: string)
    requires |files| == |parsed|
    ensures PathHas(files, parsed, |files|, path, Get(Collected(files, parsed, |files|).positions, path))
  {
    for n := 0 to |files|
      invariant PathHas(files, parsed, n, path, Get(Collected(files, parsed, n).positions, path))
    {
      NextPath(files, parsed, n, path, Get(Collected(files, parsed, n).positions, path));
    }
  }

  lemma DiffMeaning(files: seq<DiffFile>)
    ensures IsDiffOf(files, PrDiffOf(files))
  {
    var parsed := ParseAll(files);
    DiffRanges(files, parsed);
    forall path ensures PathHas(files, parsed, |files|, path, Get(PrDiffOf(files).positions, path)) {
      DiffPositions(files, parsed, path);
    }
  }

  method GetPrDiff(files: seq<DiffFile>) returns (r: DiffResult)
    ensures r == PrDiffOf(files) && IsDiffOf(files, r)
  {
    var changedRanges: seq<LineRange> := [];
    var positionByFileAndLine: map<string, map<nat, nat>> := map[];
    ghost var all := ParseAll(files);
    for n := 0 to |files|
      invariant DiffResult(changedRanges, positionByFileAndLine) == Collected(files, all, n)
    {
      var file := files[n];
      if file.status == "removed" || file.patch.None? || file.patch.value == "" {
        continue;
      }
      var parsed := ParseUnifiedDiff(file.path, file.patch.value);
      assert parsed == all[n];
      changedRanges := changedRanges + parsed.ranges;
      positionByFileAndLine := positionByFileAndLine[file.path := parsed.positionByNewLine];
    }
    r := DiffResult(changedRanges, positionByFileAndLine);
    DiffMeaning(files);
  }

  // ----- well-formed answers -----

  ghost predicate DistinctPaths(files: seq<DiffFile>) {
    forall i, j :: 0 <= i < j < |files| ==> files[i].path != files[j].path
  }

  ghost predicate PrintedFrom(f: DiffFile, hs: seq<Hunk>) {
    WellFormedPatch(hs) && f.patch == Some(Print(hs))
  }

  /** Every file comes once, and every patch of a file that is still there is a printed one. */
  ghost predicate WellFormedDiff(files: seq<DiffFile>) {
    DistinctPaths(files)
    && forall k :: 0 <= k < |files| && files[k].status != "removed" && HasPatch(files[k]) ==> exists hs :: PrintedFrom(files[k], hs)
  }

  lemma PrintIsNotEmpty(hs: seq<Hunk>)
    requires hs != []
    ensures Print(hs) != ""
  {
    var lines := PatchLines(hs, |hs|);
    PatchLength(hs, |hs|);
    FirstLine(hs, |hs|);
    if |lines| > 1 { assert Join(lines) == lines[0] + "\n" + Join(lines[1..]); }
  }

  lemma {:induction false} FirstLine(hs: seq<Hunk>, n: nat)
    requires 0 < n <= |hs|
    ensures PatchLines(hs, n) != [] && PatchLines(hs, n)[0] == PrintHeader(hs[0])
  {
    if n == 1 {
      assert PatchLines(hs, 0) == [];
    } else {
      FirstLine(hs, n - 1);
    }
  }

  /** A file that is still there and has a printed patch is part of the diff. */
  lemma PrintedIsIncluded(f: DiffFile, hs: seq<Hunk>)
    requires f.status != "removed" && PrintedFrom(f, hs)
    ensures Included(f)
  {
    PrintIsNotEmpty(hs);
  }

  predicate Covers(r: LineRange, l: nat) {
    r.startLine <= l <= r.endLine
  }

  /** What the round trip gives for one file, without its text. */
  ghost predicate Faithful(path: string, parsed: ParsedDiff) {
    && (forall r :: r in parsed.ranges ==> r.filePath == path && r.startLine <= r.endLine)
    && (forall l :: l in parsed.positionByNewLine <==> exists r :: r in parsed.ranges && Covers(r, l))
    && LinesChanged(parsed.ranges) == |parsed.positionByNewLine|
  }

  predicate IsRangeOf(path: string, h: Hunk, r: LineRange) {
    h.newLines > 0 && r == LineRange(path, h.newStart, h.newStart + h.newLines - 1)
  }

  lemma {:induction false} RangesOfPath(path: string, hs: seq<Hunk>, n: nat, r: LineRange)
    requires n <= |hs|
    ensures r in RangesOf(path, hs, n) <==> exists k :: 0 <= k < n && IsRangeOf(path, hs[k], r)
  {
    if n == 0 {
    } else {
      RangesOfPath(path, hs, n - 1, r);
    }
  }

  lemma CoveredIff(path: string, hs: seq<Hunk>, l: nat)
    ensures InSomeHunk(hs, |hs|, l) <==> exists r :: r in RangesOf(path, hs, |hs|) && Covers(r, l)
  {
    if InSomeHunk(hs, |hs|, l) {
      var k :| 0 <= k < |hs| && InHunk(hs[k], l);
      var r := LineRange(path, hs[k].newStart, hs[k].newStart + hs[k].newLines - 1);
      assert IsRangeOf(path, hs[k], r) && Covers(r, l);
      RangesOfPath(path, hs, |hs|, r);
    }
    if r :| r in RangesOf(path, hs, |hs|) && Covers(r, l) {
      RangesOfPath(path, hs, |hs|, r);
      var k :| 0 <= k < |hs| && IsRangeOf(path, hs[k], r);
      assert InHunk(hs[k], l);
    }
  }

  lemma PrintedIsFaithful(path: string, hs: seq<Hunk>)
    requires WellFormedPatch(hs)
    ensures Faithful(path, Parse(path, Print(hs)))
  {
    RoundTrip(path, hs);
    OneFileConserves(path, hs);
    var parsed := Parse(path, Print(hs));
    forall r | r in parsed.ranges ensures r.filePath == path && r.startLine <= r.endLine {
      RangesOfPath(path, hs, |hs|, r);
    }
    forall l ensures l in parsed.positionByNewLine <==> exists r :: r in parsed.ranges && Covers(r, l) {
      CoveredIff(path, hs, l);
    }
  }

  ghost predicate AllFaithful(files: seq<DiffFile>, parsed: seq<ParsedDiff>)
    requires |files| == |parsed|
  {
    DistinctPaths(files) && forall k :: 0 <= k < |files| && Included(files[k]) ==> Faithful(files[k].path, parsed[k])
  }

  lemma WellFormedIsFaithful(files: seq<DiffFile>)
    requires WellFormedDiff(files)
    ensures AllFaithful(files, ParseAll(files))
  {
    forall k | 0 <= k < |files| && Included(files[k]) ensures Faithful(files[k].path, ParseAll(files)[k]) {
      var hs: seq<Hunk> :| PrintedFrom(files[k], hs);
      PrintedIsFaithful(files[k].path, hs);
    }
  }

  // ----- one file among the others -----

  lemma {:induction false} PositionsOfFile(files: seq<DiffFile>, parsed: seq<ParsedDiff>, n: nat, i: nat)
    requires i < n <= |files| == |parsed| && DistinctPaths(files) && Included(files[i])
    ensures files[i].path in Collected(files, parsed, n).positions
    ensures Collected(files, parsed, n).positions[files[i].path] == parsed[i].positionByNewLine
  {
    if i < n - 1 { PositionsOfFile(files, parsed, n - 1, i); }
  }

  lemma {:induction false} PositionsComeFromFiles(files: seq<DiffFile>, parsed: seq<ParsedDiff>, n: nat, path: string)
    requires n <= |files| == |parsed| && path in Collected(files, parsed, n).positions
    ensures exists i :: 0 <= i < n && Included(files[i]) && files[i].path == path
  {
    if !(Included(files[n - 1]) && files[n - 1].path == path) {
      PositionsComeFromFiles(files, parsed, n - 1, path);
    }
  }

  lemma {:induction false} RangesComeFromFiles(files: seq<DiffFile>, parsed: seq<ParsedDiff>, n: nat, r: LineRange)
    requires n <= |files| == |parsed|
    ensures r in Collected(files, parsed, n).changedRanges
            <==> exists i :: 0 <= i < n && Included(files[i]) && r in parsed[i].ranges
  {
    if n == 0 {
    } else {
      RangesComeFromFiles(files, parsed, n - 1, r);
    }
  }

  lemma RangesOfFile(files: seq<DiffFile>, parsed: seq<ParsedDiff>, i: nat, r: LineRange)
    requires i < |files| == |parsed| && AllFaithful(files, parsed) && Included(files[i]) && r.filePath == files[i].path
    ensures r in Collected(files, parsed, |files|).changedRanges <==> r in parsed[i].ranges
  {
    RangesComeFromFiles(files, parsed, |files|, r);
    if j :| 0 <= j < |files| && Included(files[j]) && r in parsed[j].ranges {
      assert Faithful(files[j].path, parsed[j]);
      assert i == j;
    }
  }

  // ----- lines changed -----

  /** The sizes of the position maps of the first n files. */
  function MappedLines(files: seq<DiffFile>, positions: map<string, map<nat, nat>>, n: nat): nat
    requires n <= |files|
  {
    if n == 0 then 0
    else MappedLines(files, positions, n - 1)
         + MapSize(positions, files[n - 1].path)
  }

  function MapSize(positions: map<string, map<nat, nat>>, path: string): nat {
    if path in positions then |positions[path]| else 0
  }

  lemma {:induction false} LinesConserved(files: seq<DiffFile>, parsed: seq<ParsedDiff>, n: nat)
    requires n <= |files| == |parsed| && AllFaithful(files, parsed)
    ensures LinesChanged(Collected(files, parsed, n).changedRanges)
         == MappedLines(files, Collected(files, parsed, |files|).positions, n)
  {
    if n == 0 {
    } else {
      LinesConserved(files, parsed, n - 1);
      if Included(files[n - 1]) {
        PositionsOfFile(files, parsed, |files|, n - 1);
        LinesChangedAppend(Collected(files, parsed, n - 1).changedRanges, parsed[n - 1].ranges);
      } else if files[n - 1].path in Collected(files, parsed, |files|).positions {
        PositionsComeFromFiles(files, parsed, |files|, files[n - 1].path);
      }
    }
  }

  /**
   Which files the diff holds: exactly those that are not removed and have a patch, each with
   the ranges and the positions of its hunks.
   */
  lemma DiffHolds(files: seq<DiffFile>, i: nat, hs: seq<Hunk>, r: LineRange, l: nat, p: nat)
    requires WellFormedDiff(files) && i < |files| && files[i].status != "removed" && PrintedFrom(files[i], hs)
    ensures var all, path := PrDiffOf(files), files[i].path;
            && path in all.positions
            && (Maps(all.positions[path], l, p) <==> IsPositionOf(hs, |hs|, p, l))
            && (r.filePath == path ==>
                 (r in all.changedRanges <==> exists k :: 0 <= k < |hs| && IsRangeOf(path, hs[k], r)))
  {
    var parsed, path := ParseAll(files), files[i].path;
    PrintedIsIncluded(files[i], hs);
    PositionsOfFile(files, parsed, |files|, i);
    ParsedPositionIff(path, hs, p, l);
    if r.filePath == path {
      WellFormedIsFaithful(files);
      RangesOfFile(files, parsed, i, r);
      RoundTrip(path, hs);
      RangesOfPath(path, hs, |hs|, r);
    }
  }

  /** A path that is not one of these files', in particular that of a removed file or of one without a patch, has no range and no map. */
  lemma DiffHoldsNoOther(files: seq<DiffFile>, path: string, r: LineRange)
    requires WellFormedDiff(files)
    requires forall i :: 0 <= i < |files| && files[i].path == path ==> files[i].status == "removed" || !HasPatch(files[i])
    ensures path !in PrDiffOf(files).positions
    ensures r in PrDiffOf(files).changedRanges ==> r.filePath != path
  {
    var parsed := ParseAll(files);
    if path in PrDiffOf(files).positions {
      PositionsComeFromFiles(files, parsed, |files|, path);
    }
    if r in PrDiffOf(files).changedRanges {
      WellFormedIsFaithful(files);
      RangesComeFromFiles(files, parsed, |files|, r);
      var i :| 0 <= i < |files| && Included(files[i]) && r in parsed[i].ranges;
      assert Faithful(files[i].path, parsed[i]);
    }
  }

  /** The new-file lines that the hunks of the first n files show, without the removed files and those without a patch. */
  function ShownLines(files: seq<DiffFile>, hss: seq<seq<Hunk>>, n: nat): nat
    requires n <= |files| == |hss|
  {
    if n == 0 then 0
    else ShownLines(files, hss, n - 1)
         + ShownLinesOf(files[n - 1], hss[n - 1])
  }

  function ShownLinesOf(f: DiffFile, hs: seq<Hunk>): nat {
    if f.status != "removed" && HasPatch(f) then NewLineCount(hs, |hs|) else 0
  }

  ghost predicate PrintedFromAll(files: seq<DiffFile>, hss: seq<seq<Hunk>>) {
    |files| == |hss|
    && forall k :: 0 <= k < |files| && files[k].status != "removed" && HasPatch(files[k]) ==> PrintedFrom(files[k], hss[k])
  }

  lemma MappedOfFile(files: seq<DiffFile>, i: nat, hs: seq<Hunk>)
    requires WellFormedDiff(files) && i < |files|
    requires files[i].status != "removed" && HasPatch(files[i]) ==> PrintedFrom(files[i], hs)
    ensures MapSize(PrDiffOf(files).positions, files[i].path) == ShownLinesOf(files[i], hs)
  {
    if files[i].status != "removed" && HasPatch(files[i]) {
      PrintedIsIncluded(files[i], hs);
      PositionsOfFile(files, ParseAll(files), |files|, i);
      RoundTrip(files[i].path, hs);
    } else {
      DiffHoldsNoOther(files, files[i].path, LineRange("", 0, 0));
    }
  }

  lemma {:induction false} MappedIsShown(files: seq<DiffFile>, hss: seq<seq<Hunk>>, n: nat)
    requires WellFormedDiff(files) && PrintedFromAll(files, hss) && n <= |files|
    ensures MappedLines(files, PrDiffOf(files).positions, n) == ShownLines(files, hss, n)
  {
    for k := 0 to n
      invariant MappedLines(files, PrDiffOf(files).positions, k) == ShownLines(files, hss, k)
    {
      MappedOfFile(files, k, hss[k]);
    }
  }

  /**
   For printed patches over distinct paths, linesChanged is the number of lines that the
   patches of the remaining files show, and the total size of all position maps.
   */
  lemma LinesChangedIsMapSize(files: seq<DiffFile>, hss: seq<seq<Hunk>>)
    requires WellFormedDiff(files) && PrintedFromAll(files, hss)
    ensures LinesChanged(PrDiffOf(files).changedRanges) == ShownLines(files, hss, |files|)
    ensures LinesChanged(PrDiffOf(files).changedRanges) == MappedLines(files, PrDiffOf(files).positions, |files|)
  {
    WellFormedIsFaithful(files);
    LinesConserved(files, ParseAll(files), |files|);
    MappedIsShown(files, hss, |files|);
  }

  // ----- chunks touched by the ranges -----

  datatype StoredChunk = StoredChunk(id: nat, fileId: nat, symbol: string, startLine: int, endLine: int)
  datatype ChunkRef = ChunkRef(chunkId: nat, symbol: string, filePath: string)

  /** The chunk and file rows of one repository. */
  datatype Rows = Rows(files: map<string, nat>, chunks: seq<StoredChunk>)

  predicate Overlaps(c: StoredChunk, fileId: nat, r: LineRange) {
    c.fileId == fileId && c.startLine <= r.endLine && c.endLine >= r.startLine
  }

  /** The rows of one query, in table order. */
  function Query(chunks: seq<StoredChunk>, fileId: nat, r: LineRange, n: nat): seq<ChunkRef>
    requires n <= |chunks|
  {
    if n == 0 then []
    else
      var before, c := Query(chunks, fileId, r, n - 1), chunks[n - 1];
      if Overlaps(c, fileId, r) then before + [ChunkRef(c.id, c.symbol, r.filePath)] else before
  }

  function Selected(rows: Rows, ranges: seq<LineRange>, n: nat): seq<ChunkRef>
    requires n <= |ranges|
  {
    if n == 0 then []
    else
      var before, r := Selected(rows, ranges, n - 1), ranges[n - 1];
      if r.filePath !in rows.files then before
      else before + Query(rows.chunks, rows.files[r.filePath], r, |rows.chunks|)
  }

  method MapChangedLinesToChunks(rows: Rows, changedRanges: seq<LineRange>) returns (results: seq<ChunkRef>)
    ensures results == Selected(rows, changedRanges, |changedRanges|)
  {
    results := [];
    for n := 0 to |changedRanges|
      invariant results == Selected(rows, changedRanges, n)
    {
      var range := changedRanges[n];
      if range.filePath !in rows.files { continue; }
      var fileId := rows.files[range.filePath];
      var before := results;
      for m := 0 to |rows.chunks|
        invariant results == before + Query(rows.chunks, fileId, range, m)
      {
        var chunk := rows.chunks[m];
        if Overlaps(chunk, fileId, range) {
          results := results + [ChunkRef(chunk.id, chunk.symbol, range.filePath)];
        }
      }
    }
  }

  predicate Matches(c: StoredChunk, fileId: nat, r: LineRange, ref: ChunkRef) {
    Overlaps(c, fileId, r) && ref == ChunkRef(c.id, c.symbol, r.filePath)
  }

  lemma {:induction false} QueryMeaning(chunks: seq<StoredChunk>, fileId: nat, r: LineRange, n: nat, ref: ChunkRef)
    requires n <= |chunks|
    ensures ref in Query(chunks, fileId, r, n) <==> exists m :: 0 <= m < n && Matches(chunks[m], fileId, r, ref)
  {
    if n == 0 {
    } else {
      QueryMeaning(chunks, fileId, r, n - 1, ref);
    }
  }

  ghost predicate Hit(rows: Rows, r: LineRange, ref: ChunkRef) {
    r.filePath in rows.files
    && exists m :: 0 <= m < |rows.chunks| && Matches(rows.chunks[m], rows.files[r.filePath], r, ref)
  }

  lemma {:induction false} SelectedMeaning(rows: Rows, ranges: seq<LineRange>, n: nat, ref: ChunkRef)
    requires n <= |ranges|
    ensures ref in Selected(rows, ranges, n) <==> exists i :: 0 <= i < n && Hit(rows, ranges[i], ref)
  {
    if n == 0 {
    } else {
      SelectedMeaning(rows, ranges, n - 1, ref);
      var r := ranges[n - 1];
      if r.filePath in rows.files { QueryMeaning(rows.chunks, rows.files[r.filePath], r, |rows.chunks|, ref); }
    }
  }

  /** The chunk has a line that the patch of its file shows. */
  ghost predicate ShowsLineOf(positions: map<nat, nat>, c: StoredChunk) {
    exists l: nat :: l in positions && c.startLine <= l <= c.endLine
  }

  ghost predicate DistinctIds(rows: Rows) {
    forall j, k :: 0 <= j < |rows.chunks| && 0 <= k < |rows.chunks| && rows.chunks[j].id == rows.chunks[k].id ==> j == k
  }

  lemma OverlapIff(path: string, parsed: ParsedDiff, c: StoredChunk)
    requires Faithful(path, parsed) && c.startLine <= c.endLine
    ensures ShowsLineOf(parsed.positionByNewLine, c) <==> exists r :: r in parsed.ranges && Overlaps(c, c.fileId, r)
  {
    if ShowsLineOf(parsed.positionByNewLine, c) {
      var l: nat :| l in parsed.positionByNewLine && c.startLine <= l <= c.endLine;
      var r :| r in parsed.ranges && Covers(r, l);
      assert Overlaps(c, c.fileId, r);
    }
    if r :| r in parsed.ranges && Overlaps(c, c.fileId, r) {
      var l: nat := if c.startLine <= r.startLine then r.startLine else c.startLine;
      assert Covers(r, l);
      assert l in parsed.positionByNewLine;
    }
  }

  /**
   A stored chunk of a changed file is selected if and only if one of its lines is a key of
   the file's position map, that is, shown by the patch.
   */
  lemma ChunkSelectedIff(files: seq<DiffFile>, i: nat, hs: seq<Hunk>, rows: Rows, m: nat)
    requires WellFormedDiff(files) && i < |files| && files[i].status != "removed" && PrintedFrom(files[i], hs)
    requires m < |rows.chunks| && DistinctIds(rows)
    requires files[i].path in rows.files && rows.chunks[m].fileId == rows.files[files[i].path]
    requires rows.chunks[m].startLine <= rows.chunks[m].endLine
    ensures var all, c := PrDiffOf(files), rows.chunks[m];
            files[i].path in all.positions &&
            (ChunkRef(c.id, c.symbol, files[i].path) in Selected(rows, all.changedRanges, |all.changedRanges|)
             <==> ShowsLineOf(all.positions[files[i].path], c))
  {
    var parsed, all, c, path := ParseAll(files), PrDiffOf(files), rows.chunks[m], files[i].path;
    var ranges, ref := all.changedRanges, ChunkRef(c.id, c.symbol, path);
    PrintedIsIncluded(files[i], hs);
    WellFormedIsFaithful(files);
    PositionsOfFile(files, parsed, |files|, i);
    SelectedMeaning(rows, ranges, |ranges|, ref);
    OverlapIff(path, parsed[i], c);
    if ref in Selected(rows, ranges, |ranges|) {
      var j :| 0 <= j < |ranges| && Hit(rows, ranges[j], ref);
      RangesOfFile(files, parsed, i, ranges[j]);
    }
    if r :| r in parsed[i].ranges && Overlaps(c, c.fileId, r) {
      RangesOfFile(files, parsed, i, r);
      var j :| 0 <= j < |ranges| && ranges[j] == r;
      assert Matches(c, rows.files[path], r, ref);
      assert Hit(rows, ranges[j], ref);
    }
  }
}
