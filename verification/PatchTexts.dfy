/**
 What the unified-diff parser makes of any text at all, line by line: the header pattern as
 a form of text, the line counter, and the positions and ranges that result.
 */
module PatchTexts {
  import opened Wrappers
  import opened Sequences
  import opened Text
  import opened UnifiedDiff
  import opened DiffTheorems

  // ----- the header pattern -----

  predicate AllDigits(s: string) {
    s != "" && forall k :: 0 <= k < |s| ==> IsDigit(s[k])
  }

  /** A number, or two with a comma between them; the second one is the count, which is 1 without it. */
  ghost predicate IsRangeText(text: string, start: nat, count: nat) {
    || (AllDigits(text) && start == ParseInt(text) && count == 1)
    || exists a: string, b: string :: IsPair(text, a, b, start, count)
  }

  ghost predicate IsPair(text: string, a: string, b: string, start: nat, count: nat) {
    text == a + ("," + b) && AllDigits(a) && AllDigits(b) && start == ParseInt(a) && count == ParseInt(b)
  }

  /** The line has the form of a hunk header, with this start and count for the new file. */
  ghost predicate IsHeader(line: string, start: nat, count: nat) {
    exists before: string, after: string, rest: string, s: nat, c: nat :: HeaderOf(line, before, after, rest, s, c, start, count)
  }

  ghost predicate HeaderOf(line: string, before: string, after: string, rest: string, s: nat, c: nat, start: nat, count: nat) {
    IsRangeText(before, s, c) && IsRangeText(after, start, count)
    && line == "@@ -" + (before + (" +" + (after + (" @@" + rest))))
  }

  lemma ScanNumber(text: string, rest: string)
    requires AllDigits(text) && (rest != "" ==> !IsDigit(rest[0]) && rest[0] != ',')
    ensures ScanRange(text + rest) == Some(Scanned(ParseInt(text), 1, rest))
  {
    DigitRunOf(text, rest);
    Cut(text, rest);
  }

  lemma ScanOfText(text: string, start: nat, count: nat, rest: string)
    requires IsRangeText(text, start, count) && rest != "" && rest[0] == ' '
    ensures ScanRange(text + rest) == Some(Scanned(start, count, rest))
  {
    if a: string, b: string :| IsPair(text, a, b, start, count) {
      ScanDigits(a, b, rest);
      Associates(a, "," + b, rest);
      Associates(",", b, rest);
    } else {
      ScanNumber(text, rest);
    }
  }

  lemma Glue(s: string, k: nat)
    requires k <= |s|
    ensures s == s[..k] + s[k..]
    ensures k < |s| ==> s[k..] == [s[k]] + s[k + 1..]
  {}

  lemma PairOfScan(s: string, k: nat, tail: string, m: nat) returns (text: string)
    requires k == DigitRun(s) && 0 < k < |s| && s[k] == ',' && tail == s[k + 1..] && m == DigitRun(tail) && m > 0
    ensures IsRangeText(text, ParseInt(s[..k]), ParseInt(tail[..m])) && s == text + tail[m..]
  {
    var a, b := s[..k], tail[..m];
    text := a + ("," + b);
    Glue(s, k);
    Glue(tail, m);
    Associates(a, "," + b, tail[m..]);
    Associates(",", b, tail[m..]);
    assert IsPair(text, a, b, ParseInt(a), ParseInt(b));
  }

  lemma TextOfScan(s: string) returns (text: string)
    requires ScanRange(s).Some?
    ensures IsRangeText(text, ScanRange(s).value.start, ScanRange(s).value.count) && s == text + ScanRange(s).value.rest
  {
    var k := DigitRun(s);
    if k < |s| && s[k] == ',' && DigitRun(s[k + 1..]) > 0 {
      text := PairOfScan(s, k, s[k + 1..], DigitRun(s[k + 1..]));
    } else {
      text := s[..k];
      Glue(s, k);
    }
  }

  lemma HeaderIff(line: string, start: nat, count: nat)
    ensures MatchHeader(line) == Some((start, count)) <==> IsHeader(line, start, count)
  {
    if before: string, after: string, rest: string, s: nat, c: nat :| HeaderOf(line, before, after, rest, s, c, start, count) {
      HeaderMatches(line, before, after, rest, s, c, start, count);
    }
    if MatchHeader(line) == Some((start, count)) {
      MatchIsHeader(line, start, count);
    }
  }

  lemma HeaderMatches(line: string, before: string, after: string, rest: string, s: nat, c: nat, start: nat, count: nat)
    requires HeaderOf(line, before, after, rest, s, c, start, count)
    ensures MatchHeader(line) == Some((start, count))
  {
    var tail := " @@" + rest;
    var second := after + tail;
    var first := before + (" +" + second);
    Cut("@@ -", first);
    ScanOfText(before, s, c, " +" + second);
    Cut(" +", second);
    ScanOfText(after, start, count, tail);
    Cut(" @@", rest);
  }

  lemma AfterPrefix(s: string, prefix: string)
    requires StartsWith(s, prefix)
    ensures s == prefix + s[|prefix|..]
  {}

  /** What a scanned range leaves, with the separator that must follow it. */
  lemma TextBefore(s: string, separator: string) returns (text: string, rest: string, start: nat, count: nat)
    requires ScanRange(s).Some? && StartsWith(ScanRange(s).value.rest, separator)
    ensures start == ScanRange(s).value.start && count == ScanRange(s).value.count
    ensures rest == ScanRange(s).value.rest[|separator|..]
    ensures IsRangeText(text, start, count) && s == text + (separator + rest)
  {
    text := TextOfScan(s);
    start, count := ScanRange(s).value.start, ScanRange(s).value.count;
    rest := ScanRange(s).value.rest[|separator|..];
    AfterPrefix(ScanRange(s).value.rest, separator);
  }

  lemma BuildHeader(line: string, first: string, before: string, rest1: string, after: string, rest2: string,
                    s: nat, c: nat, start: nat, count: nat)
    requires IsRangeText(before, s, c) && IsRangeText(after, start, count)
    requires line == "@@ -" + first && first == before + (" +" + rest1) && rest1 == after + (" @@" + rest2)
    ensures IsHeader(line, start, count)
  {
    assert HeaderOf(line, before, after, rest2, s, c, start, count);
  }

  lemma HeaderParts(line: string, start: nat, count: nat) returns (first: string, second: string)
    requires MatchHeader(line) == Some((start, count))
    ensures line == "@@ -" + first
    ensures ScanRange(first).Some? && StartsWith(ScanRange(first).value.rest, " +")
    ensures second == ScanRange(first).value.rest[2..]
    ensures ScanRange(second).Some? && StartsWith(ScanRange(second).value.rest, " @@")
    ensures start == ScanRange(second).value.start && count == ScanRange(second).value.count
  {
    first := line[4..];
    second := ScanRange(first).value.rest[2..];
    AfterPrefix(line, "@@ -");
  }

  lemma MatchIsHeader(line: string, start: nat, count: nat)
    requires MatchHeader(line) == Some((start, count))
    ensures IsHeader(line, start, count)
  {
    var first, second := HeaderParts(line, start, count);
    var before, rest1, s, c := TextBefore(first, " +");
    var after, rest2, s', c' := TextBefore(second, " @@");
    BuildHeader(line, first, before, rest1, after, rest2, s, c, start, count);
  }

  // ----- lines -----

  /** What a patch's line is to the parser: a header, a line of the new file, or neither. */
  ghost predicate IsKind(line: string, kind: Kind) {
    match kind
    case Header(start, count) => IsHeader(line, start, count)
    case Shown => !IsHeaderLine(line) && line != "" && line[0] != '-' && line[0] != '\\'
    case Hidden => !IsHeaderLine(line) && (line == "" || line[0] == '-' || line[0] == '\\')
  }

  ghost predicate IsHeaderLine(line: string) {
    exists start: nat, count: nat :: IsHeader(line, start, count)
  }

  ghost predicate AreKinds(lines: seq<string>, kinds: seq<Kind>) {
    |kinds| == |lines| && forall k :: 0 <= k < |lines| ==> IsKind(lines[k], kinds[k])
  }

  lemma HeaderLineIff(line: string)
    ensures MatchHeader(line).Some? <==> IsHeaderLine(line)
  {
    if start: nat, count: nat :| IsHeader(line, start, count) {
      HeaderIff(line, start, count);
    }
    if MatchHeader(line).Some? {
      HeaderIff(line, MatchHeader(line).value.0, MatchHeader(line).value.1);
    }
  }

  lemma KindIff(line: string, kind: Kind)
    ensures Classify(line) == kind <==> IsKind(line, kind)
  {
    HeaderLineIff(line);
    if kind.Header? {
      HeaderIff(line, kind.newStart, kind.newLines);
    }
  }

  lemma KindsIff(lines: seq<string>, kinds: seq<Kind>)
    ensures Kinds(lines) == kinds <==> AreKinds(lines, kinds)
  {
    forall k | 0 <= k < |lines| && |kinds| == |lines|
      ensures Kinds(lines)[k] == kinds[k] <==> IsKind(lines[k], kinds[k])
    {
      KindIff(lines[k], kinds[k]);
    }
  }

  // ----- the loop -----

  /** The parser before line i. */
  function StateAt(path: string, kinds: seq<Kind>, i: nat): State
    requires i <= |kinds|
  {
    Fold(path, kinds[..i], 0, START)
  }

  lemma NextState(path: string, kinds: seq<Kind>, i: nat)
    requires i < |kinds|
    ensures StateAt(path, kinds, i + 1) == Step(path, kinds[i], i, StateAt(path, kinds, i))
  {
    TakeNext(kinds, i);
    FoldAppend(path, kinds[..i], [kinds[i]], 0, START);
    assert [kinds[i]][1..] == [];
  }

  ghost function ShownKind(): Kind -> bool {
    (kind: Kind) => kind.Shown?
  }

  ghost function OpensRange(): Kind -> bool {
    (kind: Kind) => kind.Header? && kind.newLines > 0
  }

  /** How many of the first n lines are shown. */
  ghost function ShownBefore(kinds: seq<Kind>, n: nat): nat
    requires n <= |kinds|
  {
    Rank(kinds, ShownKind(), n)
  }

  ghost function RangesBefore(kinds: seq<Kind>, n: nat): nat
    requires n <= |kinds|
  {
    Rank(kinds, OpensRange(), n)
  }

  /** Line h is the last header before line i. */
  ghost predicate IsLastHeader(kinds: seq<Kind>, h: nat, i: nat)
    requires i <= |kinds|
  {
    h < i && kinds[h].Header? && forall k :: h < k < i ==> !kinds[k].Header?
  }

  /**
   The number that line i has in the new file if it is shown: the last header's start and the
   shown lines since that header; without a header, the shown lines before it.
   */
  ghost predicate HasNumber(kinds: seq<Kind>, i: nat, l: nat)
    requires i <= |kinds|
  {
    && (forall h: nat :: IsLastHeader(kinds, h, i) ==> l == kinds[h].newStart + ShownBefore(kinds, i) - ShownBefore(kinds, h))
    && ((forall h: nat :: !IsLastHeader(kinds, h, i)) ==> l == ShownBefore(kinds, i))
  }

  lemma NumberIsUnique(kinds: seq<Kind>, i: nat, l: nat, m: nat)
    requires i <= |kinds| && HasNumber(kinds, i, l) && HasNumber(kinds, i, m)
    ensures l == m
  {}

  lemma LastHeaderStays(kinds: seq<Kind>, h: nat, i: nat)
    requires i < |kinds|
    ensures IsLastHeader(kinds, h, i + 1) <==> if kinds[i].Header? then h == i else IsLastHeader(kinds, h, i)
  {}

  lemma NextNumber(kinds: seq<Kind>, i: nat, now: nat, next: nat)
    requires i < |kinds| && HasNumber(kinds, i, now)
    requires next == match kinds[i] case Header(start, _) => start case Shown => now + 1 case Hidden => now
    ensures HasNumber(kinds, i + 1, next)
  {
    forall h: nat ensures IsLastHeader(kinds, h, i + 1) <==> if kinds[i].Header? then h == i else IsLastHeader(kinds, h, i) {
      LastHeaderStays(kinds, h, i);
    }
    if kinds[i].Header? { assert IsLastHeader(kinds, i, i + 1); }
  }

  lemma {:induction false} CounterIsNumber(path: string, kinds: seq<Kind>, i: nat)
    requires i <= |kinds|
    ensures HasNumber(kinds, i, StateAt(path, kinds, i).currentNewLine)
  {
    for k := 0 to i
      invariant HasNumber(kinds, k, StateAt(path, kinds, k).currentNewLine)
    {
      NextState(path, kinds, k);
      NextNumber(kinds, k, StateAt(path, kinds, k).currentNewLine, StateAt(path, kinds, k + 1).currentNewLine);
    }
  }

  /** Line p is shown with number l, and no later one of the first i lines is. */
  ghost predicate LastShown(kinds: seq<Kind>, i: nat, p: nat, l: nat)
    requires i <= |kinds|
  {
    p < i && kinds[p].Shown? && HasNumber(kinds, p, l)
    && forall q: nat :: p < q < i && kinds[q].Shown? ==> !HasNumber(kinds, q, l)
  }

  lemma NextShown(kinds: seq<Kind>, i: nat, p: nat, l: nat)
    requires i < |kinds|
    ensures LastShown(kinds, i + 1, p, l)
            <==> if kinds[i].Shown? && HasNumber(kinds, i, l) then p == i else LastShown(kinds, i, p, l)
  {}

  lemma {:induction false} PositionsTell(path: string, kinds: seq<Kind>, i: nat, p: nat, l: nat)
    requires i <= |kinds|
    ensures Maps(StateAt(path, kinds, i).positions, l, p) <==> LastShown(kinds, i, p, l)
  {
    for k := 0 to i
      invariant Maps(StateAt(path, kinds, k).positions, l, p) <==> LastShown(kinds, k, p, l)
    {
      NextPosition(path, kinds, k, p, l);
    }
  }

  lemma NextPosition(path: string, kinds: seq<Kind>, i: nat, p: nat, l: nat)
    requires i < |kinds| && (Maps(StateAt(path, kinds, i).positions, l, p) <==> LastShown(kinds, i, p, l))
    ensures Maps(StateAt(path, kinds, i + 1).positions, l, p) <==> LastShown(kinds, i + 1, p, l)
  {
    var now := StateAt(path, kinds, i).currentNewLine;
    NextState(path, kinds, i);
    CounterIsNumber(path, kinds, i);
    if HasNumber(kinds, i, l) { NumberIsUnique(kinds, i, l, now); }
    NextShown(kinds, i, p, l);
  }

  /** Each header of the first i lines that has new lines has its range, in its place. */
  ghost predicate RangesTell(path: string, kinds: seq<Kind>, i: nat, ranges: seq<LineRange>)
    requires i <= |kinds|
  {
    && |ranges| == RangesBefore(kinds, i)
    && forall h: nat :: h < i && kinds[h].Header? && kinds[h].newLines > 0 ==> IsRangeOf(path, kinds, h, ranges)
  }

  ghost predicate IsRangeOf(path: string, kinds: seq<Kind>, h: nat, ranges: seq<LineRange>)
    requires h < |kinds| && kinds[h].Header?
  {
    var k := RangesBefore(kinds, h);
    k < |ranges| && ranges[k] == LineRange(path, kinds[h].newStart, kinds[h].newStart + kinds[h].newLines - 1)
  }

  lemma {:induction false} RangesAreThose(path: string, kinds: seq<Kind>, i: nat)
    requires i <= |kinds|
    ensures RangesTell(path, kinds, i, StateAt(path, kinds, i).ranges)
  {
    for k := 0 to i
      invariant RangesTell(path, kinds, k, StateAt(path, kinds, k).ranges)
    {
      NextState(path, kinds, k);
      NextRange(path, kinds, k, StateAt(path, kinds, k).ranges, StateAt(path, kinds, k + 1).ranges);
    }
  }

  lemma NextRange(path: string, kinds: seq<Kind>, i: nat, ranges: seq<LineRange>, next: seq<LineRange>)
    requires i < |kinds| && RangesTell(path, kinds, i, ranges)
    requires next == if kinds[i].Header? && kinds[i].newLines > 0
                     then ranges + [LineRange(path, kinds[i].newStart, kinds[i].newStart + kinds[i].newLines - 1)] else ranges
    ensures RangesTell(path, kinds, i + 1, next)
  {
    forall h: nat | h < i + 1 && kinds[h].Header? && kinds[h].newLines > 0
      ensures IsRangeOf(path, kinds, h, next)
    {
      if h < i { assert IsRangeOf(path, kinds, h, ranges); }
    }
  }

  /**
   The parser on every text: one range for each header line with new lines, in order; and
   line number l has position p if and only if p is the last shown line with that number,
   counted from the last header before it.
   */
  lemma ParseTells(path: string, patch: string, kinds: seq<Kind>, p: nat, l: nat)
    requires AreKinds(Split(patch), kinds)
    ensures RangesTell(path, kinds, |kinds|, Parse(path, patch).ranges)
    ensures Maps(Parse(path, patch).positionByNewLine, l, p) <==> LastShown(kinds, |kinds|, p, l)
  {
    KindsIff(Split(patch), kinds);
    assert kinds[..|kinds|] == kinds;
    RangesAreThose(path, kinds, |kinds|);
    PositionsTell(path, kinds, |kinds|, p, l);
  }
}
