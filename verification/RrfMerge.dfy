/**
 Reciprocal rank fusion (backend/src/modules/retrieval/services/rrf-merge.service.ts) over
 exact reals, and the top-20 cut and lookup of retrieval.service.ts that follow it.
 */
module RrfMerge {
  import opened Wrappers
  import opened StableSort

  datatype RankedChunk = RankedChunk(chunkId: string, rank: nat)
  datatype QueryType = Identifier | Semantic

  function VectorK(mode: QueryType): nat { if mode == Identifier then 80 else 40 }
  function KeywordK(mode: QueryType): nat { if mode == Identifier then 10 else 40 }

  function Recip(n: nat): real
    requires n > 0
  {
    1.0 / (n as real)
  }

  // ----- the specification -----

  /** What the first n entries of one list add to the score of id. */
  function Score(list: seq<RankedChunk>, k: nat, n: nat, id: string): real
    requires n <= |list| && k > 0
  {
    if n == 0 then 0.0
    else
      var before := Score(list, k, n - 1, id);
      if list[n - 1].chunkId == id then before + Recip(k + list[n - 1].rank) else before
  }

  /** The keys of a Map in insertion order, after the first n entries of list were set. */
  function Seen(list: seq<RankedChunk>, n: nat, before: seq<string>): seq<string>
    requires n <= |list|
  {
    if n == 0 then before
    else
      var keys := Seen(list, n - 1, before);
      if list[n - 1].chunkId in keys then keys else keys + [list[n - 1].chunkId]
  }

  function Total(vector: seq<RankedChunk>, keyword: seq<RankedChunk>, mode: QueryType, id: string): real {
    Score(vector, VectorK(mode), |vector|, id) + Score(keyword, KeywordK(mode), |keyword|, id)
  }

  function Ids(vector: seq<RankedChunk>, keyword: seq<RankedChunk>): seq<string> {
    Seen(keyword, |keyword|, Seen(vector, |vector|, []))
  }

  function Keys(vector: seq<RankedChunk>, keyword: seq<RankedChunk>, mode: QueryType): seq<real> {
    var ids := Ids(vector, keyword);
    seq(|ids|, i requires 0 <= i < |ids| => -Total(vector, keyword, mode, ids[i]))
  }

  function Merged(vector: seq<RankedChunk>, keyword: seq<RankedChunk>, mode: QueryType): (r: seq<RankedChunk>)
    ensures |r| == |Ids(vector, keyword)|
  {
    var ids := Ids(vector, keyword);
    var order := Order(Keys(vector, keyword, mode));
    seq(|ids|, a requires 0 <= a < |ids| => RankedChunk(ids[order[a]], a + 1))
  }

  // ----- the code -----

  /** One of the two loops of mergeRankings; order is the insertion order of the Map. */
  method AddScores(list: seq<RankedChunk>, k: nat, scores0: map<string, real>, order0: seq<string>)
    returns (scores: map<string, real>, order: seq<string>)
    requires k > 0 && forall id :: id in scores0 <==> id in order0
    ensures forall id :: id in scores <==> id in order
    ensures order == Seen(list, |list|, order0)
    ensures forall id :: id in scores ==>
                           scores[id] == (if id in scores0 then scores0[id] else 0.0) + Score(list, k, |list|, id)
    ensures forall id :: id in scores0 ==> id in scores
    ensures forall id :: id !in scores ==> Score(list, k, |list|, id) == 0.0
  {
    scores, order := scores0, order0;
    for n := 0 to |list|
      invariant forall id :: id in scores <==> id in order
      invariant order == Seen(list, n, order0)
      invariant forall id :: id in scores ==>
                               scores[id] == (if id in scores0 then scores0[id] else 0.0) + Score(list, k, n, id)
      invariant forall id :: id in scores0 ==> id in scores
      invariant forall id :: id !in scores ==> Score(list, k, n, id) == 0.0
    {
      var r := list[n];
      var had := if r.chunkId in scores then scores[r.chunkId] else 0.0;
      if r.chunkId !in scores {
        order := order + [r.chunkId];
      }
      scores := scores[r.chunkId := had + Recip(k + r.rank)];
    }
  }

  method MergeRankings(vector: seq<RankedChunk>, keyword: seq<RankedChunk>, mode: QueryType) returns (merged: seq<RankedChunk>)
    ensures merged == Merged(vector, keyword, mode)
  {
    var scores, ids := AddScores(vector, VectorK(mode), map[], []);
    scores, ids := AddScores(keyword, KeywordK(mode), scores, ids);
    var keys := seq(|ids|, i requires 0 <= i < |ids| && ids[i] in scores => -scores[ids[i]]);
    assert keys == Keys(vector, keyword, mode);
    var order := Order(keys);
    merged := seq(|ids|, a requires 0 <= a < |ids| => RankedChunk(ids[order[a]], a + 1));
  }

  // ----- the merged list -----

  predicate Has(list: seq<RankedChunk>, n: nat, id: string)
    requires n <= |list|
  {
    exists i :: 0 <= i < n && list[i].chunkId == id
  }

  predicate Hit(list: seq<RankedChunk>, id: string) {
    Has(list, |list|, id)
  }

  predicate Distinct(ids: seq<string>) {
    forall i, j :: 0 <= i < j < |ids| ==> ids[i] != ids[j]
  }

  lemma {:induction false} SeenMeaning(list: seq<RankedChunk>, n: nat, before: seq<string>, id: string)
    requires n <= |list| && Distinct(before)
    ensures Distinct(Seen(list, n, before))
    ensures id in Seen(list, n, before) <==> id in before || Has(list, n, id)
  {
    if n == 0 {
    } else {
      SeenMeaning(list, n - 1, before, id);
      var keys := Seen(list, n - 1, before);
      assert Has(list, n, id) <==> Has(list, n - 1, id) || list[n - 1].chunkId == id;
    }
  }

  lemma IdsMeaning(vector: seq<RankedChunk>, keyword: seq<RankedChunk>, id: string)
    ensures Distinct(Ids(vector, keyword))
    ensures id in Ids(vector, keyword) <==> Hit(vector, id) || Hit(keyword, id)
  {
    SeenMeaning(vector, |vector|, [], id);
    SeenMeaning(keyword, |keyword|, Seen(vector, |vector|, []), id);
  }

  /** Nothing is lost, invented or repeated, and the ranks count from 1. */
  lemma MergeIsTheUnion(vector: seq<RankedChunk>, keyword: seq<RankedChunk>, mode: QueryType, id: string)
    ensures var merged := Merged(vector, keyword, mode);
            && (forall a :: 0 <= a < |merged| ==> merged[a].rank == a + 1)
            && (forall a, b :: 0 <= a < b < |merged| ==> merged[a].chunkId != merged[b].chunkId)
            && (Hit(merged, id) <==> Hit(vector, id) || Hit(keyword, id))
  {
    var ids, keys, merged := Ids(vector, keyword), Keys(vector, keyword, mode), Merged(vector, keyword, mode);
    var order := Order(keys);
    IdsMeaning(vector, keyword, id);
    OrderAscends(keys);
    forall a, b | 0 <= a < b < |merged| ensures merged[a].chunkId != merged[b].chunkId {
      assert Before(keys, order[a], order[b]);
    }
    if id in ids {
      var i: nat :| i < |ids| && ids[i] == id;
      assert i in order;
      var a :| 0 <= a < |order| && order[a] == i;
      assert merged[a].chunkId == id;
    }
    if Hit(merged, id) {
      var a :| 0 <= a < |merged| && merged[a].chunkId == id;
      assert ids[order[a]] == id;
    }
  }

  /** x comes up in the list before y does. */
  ghost predicate ListedBefore(list: seq<RankedChunk>, x: string, y: string) {
    exists i :: 0 <= i < |list| && ListedAt(list, i, x, y)
  }

  ghost predicate ListedAt(list: seq<RankedChunk>, i: nat, x: string, y: string)
    requires i < |list|
  {
    list[i].chunkId == x && forall j :: 0 <= j <= i ==> list[j].chunkId != y
  }

  lemma {:induction false} SeenInBoth(vector: seq<RankedChunk>, keyword: seq<RankedChunk>)
    ensures Ids(vector, keyword) == Seen(vector + keyword, |vector + keyword|, [])
  {
    var all := vector + keyword;
    for n := 0 to |vector|
      invariant Seen(all, n, []) == Seen(vector, n, [])
    {
      assert all[n] == vector[n];
    }
    var before := Seen(vector, |vector|, []);
    for n := 0 to |keyword|
      invariant Seen(all, |vector| + n, []) == Seen(keyword, n, before)
    {
      assert all[|vector| + n] == keyword[n];
    }
  }

  lemma ListedLonger(list: seq<RankedChunk>, n: nat, x: string, y: string)
    requires n < |list| && ListedBefore(list[..n], x, y)
    ensures ListedBefore(list[..n + 1], x, y)
  {
    var i :| 0 <= i < n && ListedAt(list[..n], i, x, y);
    assert ListedAt(list[..n + 1], i, x, y);
  }

  lemma ListedFirst(list: seq<RankedChunk>, n: nat, x: string, y: string)
    requires n <= |list| && Has(list, n, x) && !Has(list, n, y)
    ensures ListedBefore(list[..n], x, y)
  {
    var i :| 0 <= i < n && list[i].chunkId == x;
    assert ListedAt(list[..n], i, x, y);
  }

  lemma {:induction false} SeenInOrder(list: seq<RankedChunk>, n: nat, a: nat, b: nat)
    requires n <= |list| && a < b < |Seen(list, n, [])|
    ensures ListedBefore(list[..n], Seen(list, n, [])[a], Seen(list, n, [])[b])
  {
    var m := n - 1;
    var keys, y := Seen(list, m, []), Seen(list, n, [])[b];
    if b < |keys| {
      SeenInOrder(list, m, a, b);
    } else {
      SeenMeaning(list, m, [], keys[a]);
      SeenMeaning(list, m, [], y);
      ListedFirst(list, m, keys[a], y);
    }
    ListedLonger(list, m, keys[a], y);
  }

  lemma SeenIsListed(vector: seq<RankedChunk>, keyword: seq<RankedChunk>, x: string, y: string)
    requires SeenBefore(Ids(vector, keyword), x, y)
    ensures ListedBefore(vector + keyword, x, y)
  {
    var all, ids := vector + keyword, Ids(vector, keyword);
    SeenInBoth(vector, keyword);
    var a, b :| 0 <= a < b < |ids| && ids[a] == x && ids[b] == y;
    SeenInOrder(all, |all|, a, b);
    assert all[..|all|] == all;
  }

  /** Scores never rise along the merged list, and chunks with equal scores stay in the order in which the vector list and then the keyword list bring them up. */
  lemma MergeIsSorted(vector: seq<RankedChunk>, keyword: seq<RankedChunk>, mode: QueryType, a: nat, b: nat)
    requires a < b < |Merged(vector, keyword, mode)|
    ensures var x, y := Merged(vector, keyword, mode)[a].chunkId, Merged(vector, keyword, mode)[b].chunkId;
            Total(vector, keyword, mode, x) > Total(vector, keyword, mode, y)
            || (Total(vector, keyword, mode, x) == Total(vector, keyword, mode, y) && ListedBefore(vector + keyword, x, y))
  {
    var ids, keys := Ids(vector, keyword), Keys(vector, keyword, mode);
    var order := Order(keys);
    OrderAscends(keys);
    assert Before(keys, order[a], order[b]);
    assert keys[order[a]] == -Total(vector, keyword, mode, ids[order[a]]);
    assert keys[order[b]] == -Total(vector, keyword, mode, ids[order[b]]);
    if order[a] < order[b] { SeenIsListed(vector, keyword, ids[order[a]], ids[order[b]]); }
  }

  ghost predicate SeenBefore(ids: seq<string>, x: string, y: string) {
    exists i, j :: 0 <= i < j < |ids| && ids[i] == x && ids[j] == y
  }

  lemma HigherScoreComesFirst(vector: seq<RankedChunk>, keyword: seq<RankedChunk>, mode: QueryType, a: nat, b: nat)
    requires a < |Merged(vector, keyword, mode)| && b < |Merged(vector, keyword, mode)|
    requires Total(vector, keyword, mode, Merged(vector, keyword, mode)[a].chunkId)
             > Total(vector, keyword, mode, Merged(vector, keyword, mode)[b].chunkId)
    ensures a < b
  {
    if b < a {
      MergeIsSorted(vector, keyword, mode, b, a);
    }
  }

  // ----- bounds on scores -----

  /** A ranking of distinct chunks with ranks from 1 to limit. */
  predicate Ranking(list: seq<RankedChunk>, limit: nat) {
    && (forall i, j :: 0 <= i < j < |list| ==> list[i].chunkId != list[j].chunkId)
    && (forall i :: 0 <= i < |list| ==> 1 <= list[i].rank <= limit)
  }

  lemma RecipFalls(a: nat, b: nat)
    requires 0 < a
    ensures a < b ==> Recip(b) < Recip(a)
    ensures a <= b ==> 0.0 < Recip(b) <= Recip(a)
  {
    if a <= b {
      var x, y := a as real, b as real;
      assert Recip(a) * x == 1.0 && Recip(b) * y == 1.0;
      assert Recip(b) > 0.0;
      assert Recip(b) * x <= Recip(b) * y;
    }
  }

  lemma {:induction false} ScoreOfMiss(list: seq<RankedChunk>, k: nat, n: nat, id: string)
    requires n <= |list| && k > 0 && !Has(list, n, id)
    ensures Score(list, k, n, id) == 0.0
  {
    if n == 0 {
    } else {
      assert !Has(list, n - 1, id) && list[n - 1].chunkId != id;
      ScoreOfMiss(list, k, n - 1, id);
    }
  }

  lemma {:induction false} ScoreOfHit(list: seq<RankedChunk>, k: nat, n: nat, limit: nat, id: string)
    requires n <= |list| && k > 0 && Ranking(list, limit) && Has(list, n, id)
    ensures Recip(k + limit) <= Score(list, k, n, id) <= Recip(k + 1)
  {
    if list[n - 1].chunkId == id {
      assert !Has(list, n - 1, id);
      ScoreOfMiss(list, k, n - 1, id);
      RecipFalls(k + list[n - 1].rank, k + limit);
      RecipFalls(k + 1, k + list[n - 1].rank);
    } else {
      ScoreOfHit(list, k, n - 1, limit, id);
    }
  }

  /** The score of id is 0 in a list without it, and otherwise between the worst and the best rank's. */
  lemma ScoreBounds(list: seq<RankedChunk>, k: nat, limit: nat, id: string)
    requires k > 0 && Ranking(list, limit)
    ensures !Hit(list, id) ==> Score(list, k, |list|, id) == 0.0
    ensures Hit(list, id) ==> Recip(k + limit) <= Score(list, k, |list|, id) <= Recip(k + 1)
    ensures 0.0 <= Score(list, k, |list|, id)
  {
    if Hit(list, id) {
      ScoreOfHit(list, k, |list|, limit, id);
    } else {
      ScoreOfMiss(list, k, |list|, id);
    }
  }

  /** What one list gives to the score of id: the reciprocal of k plus its rank, or nothing if it is not there. */
  ghost predicate IsShare(list: seq<RankedChunk>, k: nat, id: string, share: real)
    requires k > 0
  {
    if Hit(list, id) then exists i :: 0 <= i < |list| && list[i].chunkId == id && share == 1.0 / ((k + list[i].rank) as real)
    else share == 0.0
  }

  lemma {:induction false} ScoreOfRank(list: seq<RankedChunk>, k: nat, n: nat, limit: nat, i: nat)
    requires i < n <= |list| && k > 0 && Ranking(list, limit)
    ensures Score(list, k, n, list[i].chunkId) == 1.0 / ((k + list[i].rank) as real)
  {
    if i == n - 1 {
      assert !Has(list, n - 1, list[i].chunkId);
      ScoreOfMiss(list, k, n - 1, list[i].chunkId);
    } else {
      ScoreOfRank(list, k, n - 1, limit, i);
    }
  }

  lemma ShareIsScore(list: seq<RankedChunk>, k: nat, limit: nat, id: string, share: real)
    requires k > 0 && Ranking(list, limit) && IsShare(list, k, id, share)
    ensures Score(list, k, |list|, id) == share
  {
    if Hit(list, id) {
      var i :| 0 <= i < |list| && list[i].chunkId == id && share == 1.0 / ((k + list[i].rank) as real);
      ScoreOfRank(list, k, |list|, limit, i);
    } else {
      ScoreOfMiss(list, k, |list|, id);
    }
  }

  /** The score of id is the sum of its two shares, with the constants 80 and 10 for identifiers and 40 and 40 otherwise. */
  lemma TotalIsSum(vector: seq<RankedChunk>, keyword: seq<RankedChunk>, mode: QueryType, limit: nat, id: string, v: real, w: real)
    requires Ranking(vector, limit) && Ranking(keyword, limit)
    requires IsShare(vector, if mode == Identifier then 80 else 40, id, v) && IsShare(keyword, if mode == Identifier then 10 else 40, id, w)
    ensures Total(vector, keyword, mode, id) == v + w
  {
    ShareIsScore(vector, VectorK(mode), limit, id, v);
    ShareIsScore(keyword, KeywordK(mode), limit, id, w);
  }

  // ----- identifier mode -----

  ghost predicate KeywordHitsFirst(vector: seq<RankedChunk>, keyword: seq<RankedChunk>) {
    var merged := Merged(vector, keyword, Identifier);
    forall a, b :: 0 <= a < |merged| && 0 <= b < |merged| && Hit(keyword, merged[a].chunkId) && !Hit(keyword, merged[b].chunkId)
                   ==> a < b
  }

  lemma KeywordHitBeatsVectorOnly(vector: seq<RankedChunk>, keyword: seq<RankedChunk>, limit: nat, x: string, y: string)
    requires Ranking(vector, limit) && Ranking(keyword, limit) && limit <= 70
    requires Hit(keyword, x) && !Hit(keyword, y)
    ensures Total(vector, keyword, Identifier, x) > Total(vector, keyword, Identifier, y)
  {
    ScoreBounds(vector, 80, limit, x);
    ScoreBounds(vector, 80, limit, y);
    ScoreBounds(keyword, 10, limit, x);
    ScoreBounds(keyword, 10, limit, y);
    RecipFalls(10 + limit, 81);
  }

  lemma TieGoesToFirstSeen(vector: seq<RankedChunk>, keyword: seq<RankedChunk>, mode: QueryType, x: string, y: string)
    returns (a: nat, b: nat)
    requires Ids(vector, keyword) == [x, y] && x != y
    requires Total(vector, keyword, mode, x) == Total(vector, keyword, mode, y)
    ensures var merged := Merged(vector, keyword, mode);
            a < b < |merged| && merged[a].chunkId == x && merged[b].chunkId == y
  {
    var merged := Merged(vector, keyword, mode);
    assert x in Ids(vector, keyword) && y in Ids(vector, keyword);
    IdsMeaning(vector, keyword, x);
    IdsMeaning(vector, keyword, y);
    MergeIsTheUnion(vector, keyword, mode, x);
    MergeIsTheUnion(vector, keyword, mode, y);
    a :| a < |merged| && merged[a].chunkId == x;
    b :| b < |merged| && merged[b].chunkId == y;
    if b < a {
      MergeIsSorted(vector, keyword, mode, b, a);
    }
  }

  lemma KeywordHitTies()
    ensures !KeywordHitsFirst([RankedChunk("v", 1)], [RankedChunk("k", 71)])
  {
    var vector, keyword := [RankedChunk("v", 1)], [RankedChunk("k", 71)];
    assert "v"[0] != "k"[0];
    assert Seen(vector, 0, []) == [] && Seen(vector, 1, []) == ["v"];
    assert Seen(keyword, 0, ["v"]) == ["v"] && Seen(keyword, 1, ["v"]) == ["v", "k"];
    var a, b := TieGoesToFirstSeen(vector, keyword, Identifier, "v", "k");
    assert keyword[0].chunkId == "k";
  }

  /**
   In identifier mode every keyword hit precedes every vector-only hit, for all rankings with
   ranks up to limit, if and only if limit is at most 70: at rank 71 a keyword hit ties with
   the first vector hit, which was seen first.
   */
  lemma KeywordHitsFirstIff(limit: nat)
    ensures (forall vector, keyword :: Ranking(vector, limit) && Ranking(keyword, limit) ==> KeywordHitsFirst(vector, keyword))
            <==> limit <= 70
  {
    if limit <= 70 {
      forall vector, keyword | Ranking(vector, limit) && Ranking(keyword, limit) ensures KeywordHitsFirst(vector, keyword) {
        KeywordHitsPrecede(vector, keyword, limit);
      }
    } else {
      KeywordHitTies();
      assert Ranking([RankedChunk("v", 1)], limit) && Ranking([RankedChunk("k", 71)], limit);
    }
  }

  lemma KeywordHitsPrecede(vector: seq<RankedChunk>, keyword: seq<RankedChunk>, limit: nat)
    requires Ranking(vector, limit) && Ranking(keyword, limit) && limit <= 70
    ensures KeywordHitsFirst(vector, keyword)
  {
    var merged := Merged(vector, keyword, Identifier);
    forall a, b | 0 <= a < |merged| && 0 <= b < |merged| && Hit(keyword, merged[a].chunkId) && !Hit(keyword, merged[b].chunkId)
      ensures a < b
    {
      KeywordHitBeatsVectorOnly(vector, keyword, limit, merged[a].chunkId, merged[b].chunkId);
      HigherScoreComesFirst(vector, keyword, Identifier, a, b);
    }
  }

  // ----- semantic mode -----

  ghost predicate SharedHitsFirst(vector: seq<RankedChunk>, keyword: seq<RankedChunk>) {
    var merged := Merged(vector, keyword, Semantic);
    forall a, b :: (0 <= a < |merged| && 0 <= b < |merged|
                    && Shared(vector, keyword, merged[a].chunkId) && !Shared(vector, keyword, merged[b].chunkId)) ==> a < b
  }

  predicate Shared(vector: seq<RankedChunk>, keyword: seq<RankedChunk>, id: string) {
    Hit(vector, id) && Hit(keyword, id)
  }

  lemma SharedBeatsSingle(vector: seq<RankedChunk>, keyword: seq<RankedChunk>, limit: nat, x: string, y: string)
    requires Ranking(vector, limit) && Ranking(keyword, limit) && limit <= 41
    requires Shared(vector, keyword, x) && !Shared(vector, keyword, y)
    ensures Total(vector, keyword, Semantic, x) > Total(vector, keyword, Semantic, y)
  {
    ScoreBounds(vector, 40, limit, x);
    ScoreBounds(vector, 40, limit, y);
    ScoreBounds(keyword, 40, limit, x);
    ScoreBounds(keyword, 40, limit, y);
    RecipFalls(40 + limit, 82);
    assert Recip(82) + Recip(82) == Recip(41);
  }

  lemma SharedHitsPrecede(vector: seq<RankedChunk>, keyword: seq<RankedChunk>, limit: nat)
    requires Ranking(vector, limit) && Ranking(keyword, limit) && limit <= 41
    ensures SharedHitsFirst(vector, keyword)
  {
    var merged := Merged(vector, keyword, Semantic);
    forall a, b | 0 <= a < |merged| && 0 <= b < |merged|
                  && Shared(vector, keyword, merged[a].chunkId) && !Shared(vector, keyword, merged[b].chunkId)
      ensures a < b
    {
      SharedBeatsSingle(vector, keyword, limit, merged[a].chunkId, merged[b].chunkId);
      HigherScoreComesFirst(vector, keyword, Semantic, a, b);
    }
  }

  lemma SharedHitTies()
    ensures !SharedHitsFirst([RankedChunk("s", 1), RankedChunk("d", 42)], [RankedChunk("d", 42)])
  {
    var vector, keyword := [RankedChunk("s", 1), RankedChunk("d", 42)], [RankedChunk("d", 42)];
    assert Recip(82) + Recip(82) == Recip(41);
    assert "s"[0] != "d"[0];
    assert Seen(vector, 0, []) == [] && Seen(vector, 1, []) == ["s"] && Seen(vector, 2, []) == ["s", "d"];
    assert Seen(keyword, 0, ["s", "d"]) == ["s", "d"] && Seen(keyword, 1, ["s", "d"]) == ["s", "d"];
    assert Score(vector, 40, 1, "s") == Recip(41) && Score(vector, 40, 1, "d") == 0.0;
    assert Score(keyword, 40, 0, "s") == 0.0 && Score(keyword, 40, 0, "d") == 0.0;
    var a, b := TieGoesToFirstSeen(vector, keyword, Semantic, "s", "d");
    assert vector[1].chunkId == "d" && keyword[0].chunkId == "d";
    assert !Hit(keyword, "s");
  }

  /**
   In semantic mode every chunk of both lists precedes every chunk of one, for all rankings
   with ranks up to limit, if and only if limit is at most 41.
   */
  lemma SharedHitsFirstIff(limit: nat)
    ensures (forall vector, keyword :: Ranking(vector, limit) && Ranking(keyword, limit) ==> SharedHitsFirst(vector, keyword))
            <==> limit <= 41
  {
    if limit <= 41 {
      forall vector, keyword | Ranking(vector, limit) && Ranking(keyword, limit) ensures SharedHitsFirst(vector, keyword) {
        SharedHitsPrecede(vector, keyword, limit);
      }
    } else {
      SharedHitTies();
      assert Ranking([RankedChunk("s", 1), RankedChunk("d", 42)], limit) && Ranking([RankedChunk("d", 42)], limit);
    }
  }

  // ----- the cut and the lookup of retrieveContext -----

  const TOP_K := 20

  /** A chunk row joined with the path of its file. */
  datatype Row = Row(id: string, filePath: string, content: string)

  /** merged.slice(0, RETRIEVAL_TOP_K) */
  function Cut(merged: seq<RankedChunk>): seq<RankedChunk> {
    if |merged| <= TOP_K then merged else merged[..TOP_K]
  }

  /** The ids of the first n ranked chunks that have a row, mapped to their rows. */
  function Candidates(top: seq<RankedChunk>, n: nat, table: map<string, Row>): seq<Row>
    requires n <= |top|
  {
    if n == 0 then []
    else
      var before := Candidates(top, n - 1, table);
      if top[n - 1].chunkId in table then before + [table[top[n - 1].chunkId]] else before
  }

  /** chunkById: a Map built from the first n rows in the order of the query's result. */
  function ById(found: seq<Row>, n: nat): map<string, Row>
    requires n <= |found|
  {
    if n == 0 then map[] else ById(found, n - 1)[found[n - 1].id := found[n - 1]]
  }

  predicate DistinctRows(found: seq<Row>) {
    forall i, j :: 0 <= i < j < |found| ==> found[i].id != found[j].id
  }

  lemma {:induction false} ByIdMeaning(found: seq<Row>, n: nat, id: string)
    requires n <= |found| && DistinctRows(found)
    ensures id in ById(found, n) <==> exists i :: 0 <= i < n && found[i].id == id
    ensures id in ById(found, n) ==> ById(found, n)[id] in found && ById(found, n)[id].id == id
  {
    if n == 0 {
    } else {
      ByIdMeaning(found, n - 1, id);
    }
  }

  /** Rows with distinct ids make the same map in any order. */
  lemma OrderOfRowsDoesNotMatter(found: seq<Row>, found': seq<Row>)
    requires DistinctRows(found) && DistinctRows(found') && forall row :: row in found <==> row in found'
    ensures ById(found, |found|) == ById(found', |found'|)
  {
    var m, m' := ById(found, |found|), ById(found', |found'|);
    forall id ensures id in m <==> id in m' {
      ByIdMeaning(found, |found|, id);
      ByIdMeaning(found', |found'|, id);
      if id in m { assert m[id] in found'; }
      if id in m' { assert m'[id] in found; }
    }
    forall id | id in m ensures m[id] == m'[id] {
      ByIdMeaning(found, |found|, id);
      ByIdMeaning(found', |found'|, id);
      assert m[id] in found';
    }
  }

  /** retrieveContext up to the reranker: found is what the query for the cut's ids returns. */
  function RetrieveContext(vector: seq<RankedChunk>, keyword: seq<RankedChunk>, mode: QueryType, found: seq<Row>): seq<Row> {
    var top := Cut(Merged(vector, keyword, mode));
    Candidates(top, |top|, ById(found, |found|))
  }

  lemma {:induction false} CandidatesMeaning(top: seq<RankedChunk>, n: nat, table: map<string, Row>, row: Row)
    requires n <= |top| && forall id :: id in table ==> table[id].id == id
    ensures row in Candidates(top, n, table) <==> Has(top, n, row.id) && row.id in table && table[row.id] == row
  {
    if n == 0 {
    } else {
      CandidatesMeaning(top, n - 1, table, row);
      assert Has(top, n, row.id) <==> Has(top, n - 1, row.id) || top[n - 1].chunkId == row.id;
    }
  }

  /** Rows come out in the order of the merged ranking. */
  lemma {:induction false} CandidatesKeepOrder(top: seq<RankedChunk>, n: nat, table: map<string, Row>, i: nat, j: nat)
    requires n <= |top| && i < j < |Candidates(top, n, table)|
    ensures exists a, b :: 0 <= a < b < n && top[a].chunkId in table && top[b].chunkId in table
                           && Candidates(top, n, table)[i] == table[top[a].chunkId]
                           && Candidates(top, n, table)[j] == table[top[b].chunkId]
  {
    if j < |Candidates(top, n - 1, table)| {
      CandidatesKeepOrder(top, n - 1, table, i, j);
    } else {
      var a := CandidateOrigin(top, n - 1, table, i);
    }
  }

  lemma {:induction false} CandidateOrigin(top: seq<RankedChunk>, n: nat, table: map<string, Row>, i: nat) returns (a: nat)
    requires n <= |top| && i < |Candidates(top, n, table)|
    ensures a < n && top[a].chunkId in table && Candidates(top, n, table)[i] == table[top[a].chunkId]
  {
    if i < |Candidates(top, n - 1, table)| {
      a := CandidateOrigin(top, n - 1, table, i);
    } else {
      a := n - 1;
    }
  }

  lemma {:induction false} CandidatesAreFew(top: seq<RankedChunk>, n: nat, table: map<string, Row>)
    requires n <= |top|
    ensures |Candidates(top, n, table)| <= n
  {
    if n == 0 {
    } else {
      CandidatesAreFew(top, n - 1, table);
    }
  }

  /** In both modes: at most twenty rows come out, exactly those found rows whose ids are among the first twenty of the merged list. */
  lemma RetrievedIff(vector: seq<RankedChunk>, keyword: seq<RankedChunk>, mode: QueryType, found: seq<Row>, row: Row)
    requires DistinctRows(found)
    ensures |RetrieveContext(vector, keyword, mode, found)| <= 20
    ensures row in RetrieveContext(vector, keyword, mode, found)
            <==> row in found && exists a :: 0 <= a < 20 && a < |Merged(vector, keyword, mode)|
                                             && Merged(vector, keyword, mode)[a].chunkId == row.id
  {
    var merged, table := Merged(vector, keyword, mode), ById(found, |found|);
    var top := Cut(merged);
    CandidatesAreFew(top, |top|, table);
    forall id | id in table ensures table[id].id == id { ByIdMeaning(found, |found|, id); }
    ByIdMeaning(found, |found|, row.id);
    CandidatesMeaning(top, |top|, table, row);
    if a :| 0 <= a < 20 && a < |merged| && merged[a].chunkId == row.id { assert top[a].chunkId == row.id; }
    if a :| 0 <= a < |top| && top[a].chunkId == row.id { assert merged[a].chunkId == row.id; }
  }

  lemma {:induction false} DistinctIdsFit(ids: seq<string>, pool: set<string>)
    requires Distinct(ids) && forall i :: 0 <= i < |ids| ==> ids[i] in pool
    ensures |ids| <= |pool|
  {
    if ids == [] {
    } else {
      var last := ids[|ids| - 1];
      DistinctIdsFit(ids[..|ids| - 1], pool - {last});
    }
  }

  lemma {:induction false} PoolFits(list: seq<RankedChunk>, n: nat) returns (pool: set<string>)
    requires n <= |list|
    ensures |pool| <= n && forall id :: Has(list, n, id) ==> id in pool
  {
    pool := {};
    if n > 0 {
      pool := PoolFits(list, n - 1);
      pool := pool + {list[n - 1].chunkId};
      forall id | Has(list, n, id) ensures id in pool {
        assert Has(list, n - 1, id) || list[n - 1].chunkId == id;
      }
    }
  }

  /** With hits that precede all others, the position of a hit is bounded by their number. */
  lemma HitsFillTheFront(vector: seq<RankedChunk>, keyword: seq<RankedChunk>, a: nat)
    requires KeywordHitsFirst(vector, keyword)
    requires a < |Merged(vector, keyword, Identifier)| && Hit(keyword, Merged(vector, keyword, Identifier)[a].chunkId)
    ensures a < |keyword|
  {
    var merged := Merged(vector, keyword, Identifier);
    MergeIsTheUnion(vector, keyword, Identifier, "");
    var front := seq(a + 1, i requires 0 <= i < a + 1 => merged[i].chunkId);
    var pool := PoolFits(keyword, |keyword|);
    forall i | 0 <= i <= a ensures front[i] in pool {
      assert Hit(keyword, merged[i].chunkId);
    }
    DistinctIdsFit(front, pool);
  }

  /**
   With the 20-row rankings that the two searches return, an identifier query loses no keyword
   hit in the cut: every one with a row is passed on.
   */
  lemma IdentifierQueryKeepsKeywordHits(vector: seq<RankedChunk>, keyword: seq<RankedChunk>, found: seq<Row>, row: Row)
    requires Ranking(vector, TOP_K) && Ranking(keyword, TOP_K) && |keyword| <= TOP_K && DistinctRows(found)
    requires Hit(keyword, row.id) && row in found
    ensures row in RetrieveContext(vector, keyword, Identifier, found)
  {
    var merged := Merged(vector, keyword, Identifier);
    KeywordHitsPrecede(vector, keyword, TOP_K);
    MergeIsTheUnion(vector, keyword, Identifier, row.id);
    var a :| 0 <= a < |merged| && merged[a].chunkId == row.id;
    HitsFillTheFront(vector, keyword, a);
    RetrievedIff(vector, keyword, Identifier, found, row);
  }

  /** The same for chunks of both lists in semantic mode. */
  lemma SharedHitsFillTheFront(vector: seq<RankedChunk>, keyword: seq<RankedChunk>, a: nat)
    requires SharedHitsFirst(vector, keyword)
    requires a < |Merged(vector, keyword, Semantic)| && Shared(vector, keyword, Merged(vector, keyword, Semantic)[a].chunkId)
    ensures a < |keyword|
  {
    var merged := Merged(vector, keyword, Semantic);
    MergeIsTheUnion(vector, keyword, Semantic, "");
    var front := seq(a + 1, i requires 0 <= i < a + 1 => merged[i].chunkId);
    var pool := PoolFits(keyword, |keyword|);
    forall i | 0 <= i <= a ensures front[i] in pool {
      assert Shared(vector, keyword, merged[i].chunkId);
    }
    DistinctIdsFit(front, pool);
  }

  /** With such rankings a semantic query passes on every chunk of both lists that has a row. */
  lemma SemanticQueryKeepsSharedHits(vector: seq<RankedChunk>, keyword: seq<RankedChunk>, found: seq<Row>, row: Row)
    requires Ranking(vector, TOP_K) && Ranking(keyword, TOP_K) && |keyword| <= TOP_K && DistinctRows(found)
    requires Hit(vector, row.id) && Hit(keyword, row.id) && row in found
    ensures row in RetrieveContext(vector, keyword, Semantic, found)
  {
    var merged := Merged(vector, keyword, Semantic);
    SharedHitsPrecede(vector, keyword, TOP_K);
    MergeIsTheUnion(vector, keyword, Semantic, row.id);
    var a :| 0 <= a < |merged| && merged[a].chunkId == row.id;
    SharedHitsFillTheFront(vector, keyword, a);
    RetrievedIff(vector, keyword, Semantic, found, row);
  }
}
