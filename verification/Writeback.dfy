/** Posting a review back to GitHub (backend/src/modules/pr-review/services/github-writeback.service.ts). */
module Writeback {
  import opened Wrappers
  import opened Text
  import opened Sequences
  import opened UnifiedDiff
  import opened DiffTheorems
  import opened PrDiff

  datatype Citation = Citation(file: string, startLine: int, endLine: int, chunkId: string)
  datatype Finding = Finding(category: string, file: string, line: int, explanation: string,
                             citation: Option<Citation>)
  datatype RiskFactor = RiskFactor(reason: string, points: nat)
  datatype Review = Review(riskScore: Option<nat>, riskLevel: Option<string>, riskFactors: seq<RiskFactor>,
                           findings: seq<Finding>)
  datatype Comment = Comment(path: string, position: nat, body: string)
  datatype Post = Post(body: string, comments: seq<Comment>)

  type PositionMap = map<string, map<nat, nat>>

  // ----- the summary -----

  function ShowInt(n: int): string {
    if n < 0 then "-" + Decimal(-n) else Decimal(n)
  }

  function SummaryEntry(f: Finding): string {
    "- **" + f.category + "** `" + f.file + ":" + ShowInt(f.line) + "`: " + f.explanation
  }

  function RiskLine(f: RiskFactor): string {
    "- " + f.reason + " (+" + Decimal(f.points) + ")"
  }

  function Headline(review: Review): string {
    "**CodeTrace Review — Risk: " + (if review.riskLevel.Some? then review.riskLevel.value else "UNKNOWN")
    + " (" + Decimal(if review.riskScore.Some? then review.riskScore.value else 0) + "/100)**"
  }

  const RISK_HEADER := "Risk factors:"
  const ENTRY_HEADER := "Additional findings (outside the changed diff, could not be inline-anchored):"

  function RiskList(factors: seq<RiskFactor>, n: nat): seq<string>
    requires n <= |factors|
  {
    if n == 0 then [] else RiskList(factors, n - 1) + [RiskLine(factors[n - 1])]
  }

  function RiskLines(factors: seq<RiskFactor>): seq<string> {
    if factors == [] then [] else [RISK_HEADER] + RiskList(factors, |factors|) + [""]
  }

  function EntryList(still: seq<Finding>, n: nat): seq<string>
    requires n <= |still|
  {
    if n == 0 then [] else EntryList(still, n - 1) + [SummaryEntry(still[n - 1])]
  }

  function EntryLines(still: seq<Finding>): seq<string> {
    if still == [] then [] else [ENTRY_HEADER] + EntryList(still, |still|)
  }

  function SummaryLines(review: Review, still: seq<Finding>): seq<string> {
    [Headline(review), ""] + RiskLines(review.riskFactors) + EntryLines(still)
  }

  method PushRiskLines(lines: seq<string>, factors: seq<RiskFactor>) returns (r: seq<string>)
    ensures r == lines + RiskLines(factors)
  {
    r := lines;
    if |factors| > 0 {
      r := r + [RISK_HEADER];
      for k := 0 to |factors|
        invariant r == lines + ([RISK_HEADER] + RiskList(factors, k))
      {
        r := r + [RiskLine(factors[k])];
      }
      r := r + [""];
    }
  }

  method PushEntryLines(lines: seq<string>, still: seq<Finding>) returns (r: seq<string>)
    ensures r == lines + EntryLines(still)
  {
    r := lines;
    if |still| > 0 {
      r := r + [ENTRY_HEADER];
      for k := 0 to |still|
        invariant r == lines + ([ENTRY_HEADER] + EntryList(still, k))
      {
        r := r + [SummaryEntry(still[k])];
      }
    }
  }

  method BuildSummaryBody(review: Review, stillWorthMentioning: seq<Finding>) returns (body: string)
    ensures body == Join(SummaryLines(review, stillWorthMentioning))
  {
    var lines := PushRiskLines([Headline(review), ""], review.riskFactors);
    lines := PushEntryLines(lines, stillWorthMentioning);
    body := Join(lines);
  }

  /** The summary ends with one entry for each finding it was given, in order. */
  lemma SummaryListsAll(review: Review, still: seq<Finding>)
    ensures exists start :: SummaryLines(review, still) == start + EntryList(still, |still|)
    ensures |EntryList(still, |still|)| == |still|
    ensures forall k :: 0 <= k < |still| ==> IsEntryOf(EntryList(still, |still|)[k], still[k])
  {
    var start, entries := [Headline(review), ""] + RiskLines(review.riskFactors), EntryList(still, |still|);
    EntriesInOrder(still, |still|);
    if still == [] {
      assert SummaryLines(review, still) == start + entries;
    } else {
      Associates(start, [ENTRY_HEADER], entries);
    }
    forall k | 0 <= k < |still| ensures IsEntryOf(entries[k], still[k]) {
      EntryMeaning(still[k]);
    }
  }

  lemma EntryMeaning(f: Finding)
    ensures IsEntryOf(SummaryEntry(f), f)
  {}

  ghost predicate AreEntries(entries: seq<string>, still: seq<Finding>, n: nat) {
    |entries| == n <= |still| && forall k :: 0 <= k < n ==> entries[k] == SummaryEntry(still[k])
  }

  lemma OneMoreEntry(entries: seq<string>, still: seq<Finding>, n: nat, entry: string)
    requires AreEntries(entries, still, n) && n < |still| && entry == SummaryEntry(still[n])
    ensures AreEntries(entries + [entry], still, n + 1)
  {}

  lemma {:induction false} EntriesInOrder(still: seq<Finding>, n: nat)
    requires n <= |still|
    ensures AreEntries(EntryList(still, n), still, n)
  {
    if n == 0 {
    } else {
      EntriesInOrder(still, n - 1);
      OneMoreEntry(EntryList(still, n - 1), still, n - 1, SummaryEntry(still[n - 1]));
    }
  }

  /** The risk factors: a heading, a line for each, and an empty line; nothing if there are none. */
  predicate AreRiskLines(factors: seq<RiskFactor>, lines: seq<string>) {
    if factors == [] then lines == []
    else
      && |lines| == |factors| + 2 && lines[0] == "Risk factors:" && lines[|factors| + 1] == ""
      && forall k :: 0 <= k < |factors| ==> lines[k + 1] == "- " + factors[k].reason + " (+" + Decimal(factors[k].points) + ")"
  }

  /** The findings without an anchor: a heading and a line for each; nothing if there are none. */
  predicate AreEntryLines(still: seq<Finding>, lines: seq<string>) {
    if still == [] then lines == []
    else
      && |lines| == |still| + 1
      && lines[0] == "Additional findings (outside the changed diff, could not be inline-anchored):"
      && forall k :: 0 <= k < |still| ==> IsEntryOf(lines[k + 1], still[k])
  }

  predicate IsHeadline(review: Review, line: string) {
    line == "**CodeTrace Review — Risk: " + (if review.riskLevel.Some? then review.riskLevel.value else "UNKNOWN")
            + " (" + Decimal(if review.riskScore.Some? then review.riskScore.value else 0) + "/100)**"
  }

  /** The text of a summary: headline, empty line, risk factors, findings without an anchor. */
  ghost predicate IsSummary(review: Review, still: seq<Finding>, body: string) {
    exists headline, risks, entries ::
      IsHeadline(review, headline) && AreRiskLines(review.riskFactors, risks) && AreEntryLines(still, entries)
      && body == Join([headline, ""] + risks + entries)
  }

  /** The line names the finding's category, file, line and explanation. */
  predicate IsEntryOf(line: string, f: Finding) {
    line == "- **" + f.category + "** `" + f.file + ":" + ShowInt(f.line) + "`: " + f.explanation
  }

  lemma {:induction false} RiskListMeaning(factors: seq<RiskFactor>, n: nat)
    requires n <= |factors|
    ensures |RiskList(factors, n)| == n
    ensures forall k :: 0 <= k < n ==>
              RiskList(factors, n)[k] == "- " + factors[k].reason + " (+" + Decimal(factors[k].points) + ")"
  {
    if n == 0 {
    } else {
      RiskListMeaning(factors, n - 1);
    }
  }

  lemma RiskLinesMeaning(factors: seq<RiskFactor>)
    ensures AreRiskLines(factors, RiskLines(factors))
  {
    RiskListMeaning(factors, |factors|);
  }

  lemma EntryLinesMeaning(still: seq<Finding>)
    ensures AreEntryLines(still, EntryLines(still))
  {
    EntriesInOrder(still, |still|);
  }

  lemma SummaryMeaning(review: Review, still: seq<Finding>)
    ensures IsSummary(review, still, Join(SummaryLines(review, still)))
  {
    RiskLinesMeaning(review.riskFactors);
    EntryLinesMeaning(still);
    assert IsHeadline(review, Headline(review));
  }

  /** The text of an integer reads back as that integer. */
  lemma ShowIntMeaning(n: int)
    ensures n >= 0 ==> (forall k :: 0 <= k < |ShowInt(n)| ==> IsDigit(ShowInt(n)[k])) && ParseInt(ShowInt(n)) == n
    ensures n < 0 ==> |ShowInt(n)| > 1 && ShowInt(n)[0] == '-' && (forall k :: 1 <= k < |ShowInt(n)| ==> IsDigit(ShowInt(n)[k]))
                      && ParseInt(ShowInt(n)[1..]) == -n
  {
    if n < 0 {
      ParseDecimal(-n);
      assert ShowInt(n)[1..] == Decimal(-n);
    } else {
      ParseDecimal(n);
    }
  }

  // ----- the routing loop -----

  /** The position at which a finding can be anchored: only on its own citation's file and range. */
  function Anchor(f: Finding, positions: PositionMap): Option<nat> {
    if f.citation.None? then None
    else
      var c := f.citation.value;
      if f.file == c.file && c.startLine <= f.line <= c.endLine
         && c.file in positions && f.line >= 0 && f.line in positions[c.file]
      then Some(positions[c.file][f.line]) else None
  }

  function InlineComment(f: Finding, position: nat): Comment {
    Comment(f.file, position, "**" + f.category + "**: " + f.explanation)
  }

  /** The findings among the first n that can, or cannot, be anchored. */
  function Anchored(findings: seq<Finding>, positions: PositionMap, n: nat): seq<Finding>
    requires n <= |findings|
  {
    if n == 0 then []
    else
      var before := Anchored(findings, positions, n - 1);
      if Anchor(findings[n - 1], positions).Some? then before + [findings[n - 1]] else before
  }

  function NotAnchored(findings: seq<Finding>, positions: PositionMap, n: nat): seq<Finding>
    requires n <= |findings|
  {
    if n == 0 then []
    else
      var before := NotAnchored(findings, positions, n - 1);
      if Anchor(findings[n - 1], positions).Some? then before else before + [findings[n - 1]]
  }

  ghost predicate CommentsOf(comments: seq<Comment>, anchored: seq<Finding>, positions: PositionMap) {
    |comments| == |anchored| && forall k :: 0 <= k < |anchored| ==>
      Anchor(anchored[k], positions).Some?
      && comments[k] == InlineComment(anchored[k], Anchor(anchored[k], positions).value)
  }

  predicate CitedHere(f: Finding) {
    f.citation.Some? && f.file == f.citation.value.file
    && f.citation.value.startLine <= f.line <= f.citation.value.endLine
  }

  /** The finding is cited where it is, and its file's map gives its line this position. */
  predicate Anchors(f: Finding, positions: PositionMap, p: nat) {
    CitedHere(f) && f.file in positions && f.line >= 0 && Maps(positions[f.file], f.line, p)
  }

  predicate Anchorable(f: Finding, positions: PositionMap) {
    CitedHere(f) && f.file in positions && f.line >= 0 && f.line in positions[f.file]
  }

  /** The comment is on the finding's file, at the position of its line, and says what the finding says. */
  predicate IsCommentOn(c: Comment, f: Finding, positions: PositionMap) {
    Anchors(f, positions, c.position) && c.path == f.file && c.body == "**" + f.category + "**: " + f.explanation
  }

  function IsAnchorable(positions: PositionMap): Finding -> bool {
    f => Anchorable(f, positions)
  }

  /** The j-th finding has its comment, in the place that the earlier anchorable findings leave it, or else its summary entry. */
  predicate RoutedAt(findings: seq<Finding>, positions: PositionMap, comments: seq<Comment>, still: seq<Finding>, j: nat)
    requires j < |findings|
  {
    var k := Rank(findings, IsAnchorable(positions), j);
    if Anchorable(findings[j], positions) then k < |comments| && IsCommentOn(comments[k], findings[j], positions)
    else 0 <= j - k < |still| && still[j - k] == findings[j]
  }

  ghost predicate Routed(findings: seq<Finding>, positions: PositionMap, comments: seq<Comment>, still: seq<Finding>) {
    && |comments| == Rank(findings, IsAnchorable(positions), |findings|)
    && |comments| + |still| == |findings|
    && forall j: nat :: j < |findings| ==> RoutedAt(findings, positions, comments, still, j)
  }

  lemma {:induction false} PartSizes(findings: seq<Finding>, positions: PositionMap, n: nat)
    requires n <= |findings|
    ensures |Anchored(findings, positions, n)| == Rank(findings, IsAnchorable(positions), n)
    ensures |NotAnchored(findings, positions, n)| == n - Rank(findings, IsAnchorable(positions), n)
  {
    for k := 0 to n
      invariant |Anchored(findings, positions, k)| == Rank(findings, IsAnchorable(positions), k)
      invariant |NotAnchored(findings, positions, k)| == k - Rank(findings, IsAnchorable(positions), k)
    {}
  }

  lemma {:induction false} PlaceInPart(findings: seq<Finding>, positions: PositionMap, j: nat, n: nat)
    requires j < n <= |findings|
    ensures var k := |Anchored(findings, positions, j)|; var m := |NotAnchored(findings, positions, j)|;
            if Anchorable(findings[j], positions)
            then k < |Anchored(findings, positions, n)| && Anchored(findings, positions, n)[k] == findings[j]
            else m < |NotAnchored(findings, positions, n)| && NotAnchored(findings, positions, n)[m] == findings[j]
  {
    if n > j + 1 { PlaceInPart(findings, positions, j, n - 1); }
  }

  /** So the two parts hold each finding once, in its place. */
  lemma PartsAreRouted(findings: seq<Finding>, positions: PositionMap, comments: seq<Comment>)
    requires CommentsOf(comments, Anchored(findings, positions, |findings|), positions)
    ensures Routed(findings, positions, comments, NotAnchored(findings, positions, |findings|))
  {
    PartSizes(findings, positions, |findings|);
    forall j: nat | j < |findings|
      ensures RoutedAt(findings, positions, comments, NotAnchored(findings, positions, |findings|), j)
    {
      PartSizes(findings, positions, j);
      PlaceInPart(findings, positions, j, |findings|);
    }
  }

  method RouteFindings(findings: seq<Finding>, positions: PositionMap)
    returns (comments: seq<Comment>, still: seq<Finding>)
    ensures CommentsOf(comments, Anchored(findings, positions, |findings|), positions)
    ensures still == NotAnchored(findings, positions, |findings|)
    ensures Routed(findings, positions, comments, still)
  {
    comments, still := [], [];
    for n := 0 to |findings|
      invariant CommentsOf(comments, Anchored(findings, positions, n), positions)
      invariant still == NotAnchored(findings, positions, n)
    {
      var finding := findings[n];
      var citation := finding.citation;
      var inCitationFile := citation.Some? && finding.file == citation.value.file;
      var inCitationRange :=
        citation.Some? && finding.line >= citation.value.startLine && finding.line <= citation.value.endLine;
      var position: Option<nat> := None;
      if inCitationFile && inCitationRange && citation.value.file in positions
         && finding.line >= 0 && finding.line in positions[citation.value.file] {
        position := Some(positions[citation.value.file][finding.line]);
      }
      if citation.Some? && position.Some? {
        comments := comments
          + [Comment(citation.value.file, position.value, "**" + finding.category + "**: " + finding.explanation)];
      } else {
        still := still + [finding];
      }
    }
    PartsAreRouted(findings, positions, comments);
  }

  // ----- nothing lost, nothing posted twice -----

  ghost predicate Subsequence<T>(a: seq<T>, s: seq<T>)
    decreases |s|
  {
    a == [] || (s != [] && (Subsequence(a, s[..|s| - 1])
                            || (a[|a| - 1] == s[|s| - 1] && Subsequence(a[..|a| - 1], s[..|s| - 1]))))
  }

  /** Inline comments and summary entries partition the findings. */
  lemma {:induction false} FindingsArePartitioned(findings: seq<Finding>, positions: PositionMap, n: nat)
    requires n <= |findings|
    ensures multiset(Anchored(findings, positions, n)) + multiset(NotAnchored(findings, positions, n))
         == multiset(findings[..n])
  {
    if n == 0 {
    } else {
      FindingsArePartitioned(findings, positions, n - 1);
      PartsGrow(Anchored(findings, positions, n - 1), NotAnchored(findings, positions, n - 1), findings[..n - 1], findings[n - 1]);
      TakeNext(findings, n - 1);
    }
  }

  /** Inline comments come from findings that have an anchor, summary entries from those that have none. */
  lemma {:induction false} PartsAreDisjoint(findings: seq<Finding>, positions: PositionMap, n: nat, f: Finding)
    requires n <= |findings|
    ensures f in Anchored(findings, positions, n) ==> Anchor(f, positions).Some?
    ensures f in NotAnchored(findings, positions, n) ==> Anchor(f, positions).None?
  {
    if n == 0 {
    } else {
      PartsAreDisjoint(findings, positions, n - 1, f);
    }
  }

  /** Both parts keep the original order. */
  lemma {:induction false} OrderIsKept(findings: seq<Finding>, positions: PositionMap, n: nat)
    requires n <= |findings|
    ensures Subsequence(Anchored(findings, positions, n), findings[..n])
    ensures Subsequence(NotAnchored(findings, positions, n), findings[..n])
  {
    if n == 0 {
    } else {
      OrderIsKept(findings, positions, n - 1);
      var init, last := findings[..n - 1], findings[n - 1];
      assert findings[..n] == init + [last];
      SubsequenceSnoc(Anchored(findings, positions, n - 1), init, last);
      SubsequenceSnoc(NotAnchored(findings, positions, n - 1), init, last);
    }
  }

  lemma SubsequenceSnoc<T>(a: seq<T>, s: seq<T>, x: T)
    requires Subsequence(a, s)
    ensures Subsequence(a, s + [x]) && Subsequence(a + [x], s + [x])
  {
    assert (s + [x])[..|s|] == s && (a + [x])[..|a|] == a;
  }

  // ----- end to end -----

  /** Position p of the patch shows line l of the new file, with the text the hunks give it. */
  ghost predicate PatchShows(hs: seq<Hunk>, p: nat, l: int) {
    exists k :: 0 <= k < |hs| && l >= 0 && ShownAt(hs[k], l, Split(Print(hs)), p)
  }

  /** Some file of the diff has this path and is still there, and these are the hunks of its patch. */
  ghost predicate InDiff(files: seq<DiffFile>, path: string, hs: seq<Hunk>) {
    exists i :: 0 <= i < |files| && files[i].path == path && files[i].status != "removed" && PrintedFrom(files[i], hs)
  }

  /**
   A finding about a file of the diff is anchored if and only if its citation is in its own
   file and range and a hunk of the file has its line; the position is then that of the line
   in the patch, and the patch shows the line there.
   */
  lemma AnchoredWhereShown(files: seq<DiffFile>, hs: seq<Hunk>, f: Finding, p: nat)
    requires WellFormedDiff(files) && InDiff(files, f.file, hs)
    ensures var positions := PrDiffOf(files).positions;
            && (Anchorable(f, positions) <==> CitedHere(f) && f.line >= 0 && InSomeHunk(hs, |hs|, f.line))
            && (Anchors(f, positions, p) <==> CitedHere(f) && f.line >= 0 && IsPositionOf(hs, |hs|, p, f.line))
            && (Anchors(f, positions, p) ==> PatchShows(hs, p, f.line))
  {
    var i :| 0 <= i < |files| && files[i].path == f.file && files[i].status != "removed" && PrintedFrom(files[i], hs);
    PrintedIsIncluded(files[i], hs);
    RoundTrip(f.file, hs);
    PositionsOfFile(files, ParseAll(files), |files|, i);
    var positions := PrDiffOf(files).positions[f.file];
    assert positions == Parse(f.file, Print(hs)).positionByNewLine;
    if f.line >= 0 {
      ParsedPositionIff(f.file, hs, p, f.line);
      if f.line in positions { ShownThere(hs, f.line, positions); }
    }
  }

  lemma ShownThere(hs: seq<Hunk>, l: nat, positions: map<nat, nat>)
    requires Renders(hs, Split(Print(hs)), positions) && l in positions
    ensures PatchShows(hs, positions[l], l)
  {
    assert InSomeHunk(hs, |hs|, l);
    var k :| 0 <= k < |hs| && InHunk(hs[k], l);
    assert ShownAt(hs[k], l, Split(Print(hs)), positions[l]);
  }

  /** A finding about any other file, such as a removed one or one without a patch, is never posted inline. */
  lemma OtherFilesAreNotAnchored(files: seq<DiffFile>, f: Finding)
    requires WellFormedDiff(files)
    requires forall i :: 0 <= i < |files| && files[i].path == f.file ==> files[i].status == "removed" || !HasPatch(files[i])
    ensures !Anchorable(f, PrDiffOf(files).positions)
  {
    DiffHoldsNoOther(files, f.file, LineRange("", 0, 0));
  }

  /** The comment is on the finding's file, at the position of the finding's line in a patch of that file. */
  ghost predicate CommentFits(files: seq<DiffFile>, f: Finding, c: Comment) {
    && c.path == f.file && c.body == "**" + f.category + "**: " + f.explanation
    && exists hs :: InDiff(files, c.path, hs) && f.line >= 0 && IsPositionOf(hs, |hs|, c.position, f.line)
                    && PatchShows(hs, c.position, f.line)
  }

  /** The patch of that file has the line. */
  ghost predicate LineInDiff(files: seq<DiffFile>, path: string, l: nat) {
    exists hs :: InDiff(files, path, hs) && InSomeHunk(hs, |hs|, l)
  }

  /** The finding is cited where it is, and the patch of its file has its line. */
  ghost predicate ShownInDiff(files: seq<DiffFile>, f: Finding) {
    CitedHere(f) && f.line >= 0 && LineInDiff(files, f.file, f.line)
  }

  lemma MappedIsInDiff(files: seq<DiffFile>, path: string) returns (hs: seq<Hunk>)
    requires WellFormedDiff(files) && path in PrDiffOf(files).positions
    ensures InDiff(files, path, hs)
  {
    PositionsComeFromFiles(files, ParseAll(files), |files|, path);
    var i :| 0 <= i < |files| && Included(files[i]) && files[i].path == path;
    hs :| PrintedFrom(files[i], hs);
  }

  lemma AnchorableIff(files: seq<DiffFile>, f: Finding)
    requires WellFormedDiff(files)
    ensures Anchorable(f, PrDiffOf(files).positions) <==> ShownInDiff(files, f)
  {
    if Anchorable(f, PrDiffOf(files).positions) {
      var hs := MappedIsInDiff(files, f.file);
      AnchoredWhereShown(files, hs, f, 0);
    }
    if ShownInDiff(files, f) {
      var hs :| InDiff(files, f.file, hs) && InSomeHunk(hs, |hs|, f.line);
      AnchoredWhereShown(files, hs, f, 0);
    }
  }

  /**
   End to end: the j-th finding has an inline comment if and only if it is cited where it is
   and the patch of its file has its line. The comment stands in the place that the earlier
   such findings leave it, on the finding's file, at the position of the finding's line in
   that file's patch, with the finding's category and explanation. Any other finding is an
   entry of the summary, in its place.
   */
  lemma CommentsAreAnchored(files: seq<DiffFile>, findings: seq<Finding>, comments: seq<Comment>, still: seq<Finding>, j: nat)
    requires WellFormedDiff(files) && Routed(findings, PrDiffOf(files).positions, comments, still) && j < |findings|
    ensures var k := Rank(findings, IsAnchorable(PrDiffOf(files).positions), j);
            if ShownInDiff(files, findings[j]) then k < |comments| && CommentFits(files, findings[j], comments[k])
            else 0 <= j - k < |still| && still[j - k] == findings[j]
  {
    var f, positions := findings[j], PrDiffOf(files).positions;
    AnchorableIff(files, f);
    assert RoutedAt(findings, positions, comments, still, j);
    if ShownInDiff(files, f) {
      var hs :| InDiff(files, f.file, hs) && InSomeHunk(hs, |hs|, f.line);
      AnchoredWhereShown(files, hs, f, comments[Rank(findings, IsAnchorable(positions), j)].position);
    }
  }

  // ----- the request -----

  /** GitHub's answer to the n-th request. */
  datatype Reply = Accepted | Rejected(status: int) | NetworkError

  class GitHub {
    const reply: nat -> Reply
    var requests: seq<Post>

    constructor (reply: nat -> Reply)
      ensures this.reply == reply && requests == []
    {
      this.reply := reply;
      requests := [];
    }

    method Send(post: Post) returns (r: Reply)
      modifies this
      ensures requests == old(requests) + [post] && r == reply(|old(requests)|)
    {
      r := reply(|requests|);
      requests := requests + [post];
    }
  }

  datatype Posted = Posted | Refused | Threw

  /**
   One call sends exactly one review: its comments are those of the findings that can be
   anchored, its body lists the others, and the answer tells the result.
   */
  method PostReviewToGitHub(github: GitHub, review: Review, positions: PositionMap) returns (r: Posted)
    modifies github
    ensures |github.requests| == |old(github.requests)| + 1 && old(github.requests) <= github.requests
    ensures var post := github.requests[|old(github.requests)|];
            exists still :: Routed(review.findings, positions, post.comments, still) && IsSummary(review, still, post.body)
    ensures r == match github.reply(|old(github.requests)|)
                 case Accepted => Posted
                 case Rejected(_) => Refused
                 case NetworkError => Threw
  {
    var comments, still := RouteFindings(review.findings, positions);
    var body := BuildSummaryBody(review, still);
    SummaryMeaning(review, still);
    var reply := github.Send(Post(body, comments));
    assert github.requests[|old(github.requests)|] == Post(body, comments);
    match reply
    case Accepted => r := Posted;
    case Rejected(_) => r := Refused;
    case NetworkError => r := Threw;
  }
}
