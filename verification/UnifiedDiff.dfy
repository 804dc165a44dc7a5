/**
 The unified-diff parser (backend/src/modules/pr-review/services/github-diff.service.ts)
 and the printer that it undoes: the "Diff -u or -U Output Format" of the diff utility in
 POSIX.1-2017. That format lets an empty unaffected line stand without its leading space;
 the printer always writes the space, and the parser skips a line without it.
 */
module UnifiedDiff {
  import opened Wrappers
  import opened Text
  import opened Sequences

  datatype LineRange = LineRange(filePath: string, startLine: nat, endLine: int)
  datatype ParsedDiff = ParsedDiff(ranges: seq<LineRange>, positionByNewLine: map<nat, nat>)

  // ----- the hunk header -----

  function StartsWith(s: string, prefix: string): bool {
    |prefix| <= |s| && s[..|prefix|] == prefix
  }

  datatype Scanned = Scanned(start: nat, count: nat, rest: string)

  /** (\d+)(?:,(\d+))? with the count's default of 1. */
  function ScanRange(s: string): Option<Scanned> {
    var k := DigitRun(s);
    if k == 0 then None
    else
      var start := ParseInt(s[..k]);
      if k < |s| && s[k] == ',' && DigitRun(s[k + 1..]) > 0 then
        var m := DigitRun(s[k + 1..]);
        Some(Scanned(start, ParseInt(s[k + 1..][..m]), s[k + 1..][m..]))
      else Some(Scanned(start, 1, s[k..]))
  }

  /** HUNK_HEADER_RE: the new file's start and line count. */
  function MatchHeader(line: string): Option<(nat, nat)> {
    if !StartsWith(line, "@@ -") then None
    else
      var before := ScanRange(line[4..]);
      if before.None? || !StartsWith(before.value.rest, " +") then None
      else
        var after := ScanRange(before.value.rest[2..]);
        if after.None? || !StartsWith(after.value.rest, " @@") then None
        else Some((after.value.start, after.value.count))
  }

  // ----- the parser -----

  datatype State = State(ranges: seq<LineRange>, positions: map<nat, nat>, currentNewLine: nat)

  const START := State([], map[], 0)

  /** How the parser's branches see a line. */
  datatype Kind = Header(newStart: nat, newLines: nat) | Shown | Hidden

  function Classify(line: string): Kind {
    var header := MatchHeader(line);
    if header.Some? then Header(header.value.0, header.value.1)
    else if line == "" || line[0] == '-' || line[0] == '\\' then Hidden
    else Shown
  }

  function Kinds(lines: seq<string>): (kinds: seq<Kind>)
    ensures |kinds| == |lines| && forall k :: 0 <= k < |lines| ==> kinds[k] == Classify(lines[k])
  {
    seq(|lines|, k requires 0 <= k < |lines| => Classify(lines[k]))
  }

  function Step(path: string, kind: Kind, i: nat, st: State): State {
    match kind
    case Header(newStart, newLines) =>
      State(if newLines > 0 then st.ranges + [LineRange(path, newStart, newStart + newLines - 1)] else st.ranges,
            st.positions, newStart)
    case Hidden => st
    case Shown => State(st.ranges, st.positions[st.currentNewLine := i], st.currentNewLine + 1)
  }

  /** The loop from line i on. */
  function Fold(path: string, kinds: seq<Kind>, i: nat, st: State): State {
    if kinds == [] then st else Fold(path, kinds[1..], i + 1, Step(path, kinds[0], i, st))
  }

  function Parse(path: string, patch: string): ParsedDiff {
    var st := Fold(path, Kinds(Split(patch)), 0, START);
    ParsedDiff(st.ranges, st.positions)
  }

  lemma FoldOne(path: string, kinds: seq<Kind>, i: nat, st: State)
    requires i < |kinds|
    ensures Fold(path, kinds[i..], i, st) == Fold(path, kinds[i + 1..], i + 1, Step(path, kinds[i], i, st))
  {
    assert kinds[i..][0] == kinds[i] && kinds[i..][1..] == kinds[i + 1..];
  }

  /** The body of the loop. */
  method ParseLine(path: string, line: string, i: nat, st: State) returns (next: State)
    ensures next == Step(path, Classify(line), i, st)
  {
    var ranges, positionByNewLine, currentNewLine := st.ranges, st.positions, st.currentNewLine;
    var header := MatchHeader(line);
    if header.Some? {
      var (newStart, newLines) := header.value;
      if newLines > 0 {
        ranges := ranges + [LineRange(path, newStart, newStart + newLines - 1)];
      }
      return State(ranges, positionByNewLine, newStart);
    }
    if |line| > 0 && line[0] == '-' { return st; }
    if |line| > 0 && line[0] == '\\' { return st; }
    if |line| == 0 { return st; }
    positionByNewLine := positionByNewLine[currentNewLine := i];
    currentNewLine := currentNewLine + 1;
    next := State(ranges, positionByNewLine, currentNewLine);
  }

  method ParseUnifiedDiff(path: string, patch: string) returns (r: ParsedDiff)
    ensures r == Parse(path, patch)
  {
    var lines := Split(patch);
    var st := START;
    ghost var kinds := Kinds(lines);
    for i := 0 to |lines|
      invariant Fold(path, kinds, 0, START) == Fold(path, kinds[i..], i, st)
    {
      FoldOne(path, kinds, i, st);
      st := ParseLine(path, lines[i], i, st);
    }
    r := ParsedDiff(st.ranges, st.positions);
  }

  // ----- the printer -----

  datatype BodyLine = Context(text: string) | Added(text: string) | Removed(text: string) | Marker(text: string)

  /** `shortOld` and `shortNew` choose the form without a count where the count is 1. */
  datatype Hunk = Hunk(oldStart: nat, oldLines: nat, newStart: nat, newLines: nat,
                       shortOld: bool, shortNew: bool, section: string, body: seq<BodyLine>)

  predicate InNewFile(b: BodyLine) { b.Context? || b.Added? }

  predicate InOldFile(b: BodyLine) { b.Context? || b.Removed? }

  /** The lines of the new file that the body shows. */
  function NewSide(body: seq<BodyLine>): seq<string> {
    if body == [] then []
    else if InNewFile(body[0]) then [body[0].text] + NewSide(body[1..])
    else NewSide(body[1..])
  }

  function OldSide(body: seq<BodyLine>): seq<string> {
    if body == [] then []
    else if InOldFile(body[0]) then [body[0].text] + OldSide(body[1..])
    else OldSide(body[1..])
  }

  predicate WellFormed(h: Hunk) {
    h.newLines == |NewSide(h.body)| && h.oldLines == |OldSide(h.body)| && OneLine(h.section)
    && forall k :: 0 <= k < |h.body| ==> OneLine(h.body[k].text)
  }

  /** Hunks that show lines of the new file show later and later ones. */
  predicate Ascending(hs: seq<Hunk>) {
    forall i, j :: 0 <= i < j < |hs| && hs[i].newLines > 0 && hs[j].newLines > 0 ==>
      hs[i].newStart + hs[i].newLines <= hs[j].newStart
  }

  predicate WellFormedHunks(hs: seq<Hunk>) {
    Ascending(hs) && forall k :: 0 <= k < |hs| ==> WellFormed(hs[k])
  }

  predicate WellFormedPatch(hs: seq<Hunk>) {
    hs != [] && WellFormedHunks(hs)
  }

  function PrintRange(start: nat, count: nat, short: bool): string {
    if short && count == 1 then Decimal(start) else Decimal(start) + "," + Decimal(count)
  }

  function PrintHeader(h: Hunk): string {
    "@@ -" + (PrintRange(h.oldStart, h.oldLines, h.shortOld)
              + (" +" + (PrintRange(h.newStart, h.newLines, h.shortNew) + (" @@" + h.section))))
  }

  function PrintLine(b: BodyLine): string {
    match b
    case Context(text) => " " + text
    case Added(text) => "+" + text
    case Removed(text) => "-" + text
    case Marker(text) => "\\" + text
  }

  function PrintBody(body: seq<BodyLine>): (lines: seq<string>)
    ensures |lines| == |body| && forall k :: 0 <= k < |body| ==> lines[k] == PrintLine(body[k])
  {
    seq(|body|, k requires 0 <= k < |body| => PrintLine(body[k]))
  }

  function HunkLines(h: Hunk): seq<string> {
    [PrintHeader(h)] + PrintBody(h.body)
  }

  /** The lines of the first n hunks. */
  function PatchLines(hs: seq<Hunk>, n: nat): seq<string>
    requires n <= |hs|
  {
    if n == 0 then [] else PatchLines(hs, n - 1) + HunkLines(hs[n - 1])
  }

  function Print(hs: seq<Hunk>): string {
    Join(PatchLines(hs, |hs|))
  }

  // ----- the header round trip -----

  lemma ScanShort(start: nat, rest: string)
    requires rest != "" && !IsDigit(rest[0]) && rest[0] != ','
    ensures ScanRange(Decimal(start) + rest) == Some(Scanned(start, 1, rest))
  {
    ParseDecimal(start);
    DigitRunOf(Decimal(start), rest);
    Cut(Decimal(start), rest);
  }

  lemma ScanDigits(start: string, count: string, rest: string)
    requires rest != "" && !IsDigit(rest[0]) && start != "" && count != ""
    requires forall k :: 0 <= k < |start| ==> IsDigit(start[k])
    requires forall k :: 0 <= k < |count| ==> IsDigit(count[k])
    ensures ScanRange(start + ("," + (count + rest))) == Some(Scanned(ParseInt(start), ParseInt(count), rest))
  {
    var tail := count + rest;
    Skip(start, ',', tail);
    DigitRunOf(start, "," + tail);
    DigitRunOf(count, rest);
    Cut(count, rest);
  }

  lemma ScanLong(start: nat, count: nat, rest: string)
    requires rest != "" && !IsDigit(rest[0])
    ensures ScanRange(Decimal(start) + ("," + (Decimal(count) + rest))) == Some(Scanned(start, count, rest))
  {
    ParseDecimal(start);
    ParseDecimal(count);
    ScanDigits(Decimal(start), Decimal(count), rest);
  }

  lemma ScanPrinted(start: nat, count: nat, short: bool, rest: string)
    requires rest != "" && !IsDigit(rest[0]) && rest[0] != ','
    ensures ScanRange(PrintRange(start, count, short) + rest) == Some(Scanned(start, count, rest))
  {
    if short && count == 1 {
      ScanShort(start, rest);
    } else {
      ScanLong(start, count, rest);
      Associates(Decimal(start) + ",", Decimal(count), rest);
      Associates(Decimal(start), ",", Decimal(count) + rest);
    }
  }

  /** The printed header parses to the new file's start and count, in the short and in the long form. */
  lemma HeaderRoundTrip(h: Hunk)
    ensures MatchHeader(PrintHeader(h)) == Some((h.newStart, h.newLines))
  {
    var tail := " @@" + h.section;
    var after := PrintRange(h.newStart, h.newLines, h.shortNew) + tail;
    var before := PrintRange(h.oldStart, h.oldLines, h.shortOld) + (" +" + after);
    Cut("@@ -", before);
    ScanPrinted(h.oldStart, h.oldLines, h.shortOld, " +" + after);
    Cut(" +", after);
    ScanPrinted(h.newStart, h.newLines, h.shortNew, tail);
    Cut(" @@", h.section);
  }

  lemma NotAHeader(line: string)
    requires line == "" || line[0] != '@'
    ensures MatchHeader(line).None?
  {
    if |line| >= 4 { assert line[..4][0] == line[0]; }
  }

  function KindOf(b: BodyLine): Kind {
    if InNewFile(b) then Shown else Hidden
  }

  lemma PrintedLineKind(b: BodyLine)
    ensures Classify(PrintLine(b)) == KindOf(b)
  {
    NotAHeader(PrintLine(b));
  }
}
