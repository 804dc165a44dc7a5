/**
 The embedding store (worker/src/embedding/cache.py) and the batcher that fills it
 (worker/src/embedding/batcher.py).

 The provider is an oracle: the n-th call with texts ts answers `answer(n, ts)`, so two
 calls with the same texts may answer differently.  The store is one map; each upsert is
 one transaction, and `life` is the number of transactions that still commit before the
 worker dies.
 */
module Embedding {
  import opened Sequences

  type Vector = seq<real>
  type Store = map<(string, string), Vector>  // (content_hash, model_version) -> vector
  type Item = (string, string)                // (content_hash, content)

  const MAX_REQUESTS_PER_CALL: nat := 20
  const MAX_RETRIES_PER_SUB_BATCH: nat := 5

  datatype Answer = Vectors(vectors: seq<Vector>) | ApiError(code: int) | OtherError
  type Oracle = (nat, seq<string>) -> Answer

  /** What a batch does: `calls` counts provider calls, `life` what is left of the worker. */
  datatype Outcome = Done(hits: map<string, bool>) | Raised | Killed
  datatype Batch = Batch(store: Store, outcome: Outcome, calls: nat, life: nat)

  // ----- the retry loop -----

  datatype Reply = Reply(answer: Answer, calls: nat)

  /** The last answer seen from attempt number `attempt` on, and the calls made so far. */
  function Retry(oracle: Oracle, calls: nat, texts: seq<string>, attempt: nat): (r: Reply)
    requires attempt < MAX_RETRIES_PER_SUB_BATCH
    ensures calls < r.calls <= calls + MAX_RETRIES_PER_SUB_BATCH - attempt
    ensures r.answer == oracle(r.calls - 1, texts)
    ensures forall n :: calls <= n < r.calls - 1 ==> oracle(n, texts) == ApiError(429)
    ensures r.answer == ApiError(429) ==> r.calls == calls + MAX_RETRIES_PER_SUB_BATCH - attempt
    decreases MAX_RETRIES_PER_SUB_BATCH - attempt
  {
    var a := oracle(calls, texts);
    if a != ApiError(429) || attempt == MAX_RETRIES_PER_SUB_BATCH - 1 then Reply(a, calls + 1)
    else Retry(oracle, calls + 1, texts, attempt + 1)
  }

  // ----- sub-batches -----

  function Head(texts: seq<string>): seq<string> {
    if |texts| <= MAX_REQUESTS_PER_CALL then texts else texts[..MAX_REQUESTS_PER_CALL]
  }

  function Tail(texts: seq<string>): seq<string> {
    if |texts| <= MAX_REQUESTS_PER_CALL then [] else texts[MAX_REQUESTS_PER_CALL..]
  }

  /** All vectors of all sub-batches in order, or the first answer that is not vectors. */
  function Chunked(oracle: Oracle, calls: nat, texts: seq<string>): Reply
    decreases |texts|
  {
    if texts == [] then Reply(Vectors([]), calls)
    else
      var first := Retry(oracle, calls, Head(texts), 0);
      if !first.answer.Vectors? then first
      else
        var rest := Chunked(oracle, first.calls, Tail(texts));
        if !rest.answer.Vectors? then rest
        else Reply(Vectors(first.answer.vectors + rest.answer.vectors), rest.calls)
  }

  lemma OneBlockFewer(n: nat, rest: nat)
    requires n > 0 && (if n <= 20 then rest == 0 else rest == n - 20)
    ensures 5 + 5 * ((rest + 19) / 20) == 5 * ((n + 19) / 20)
  {}

  /** At most five calls for each sub-batch of twenty texts. */
  lemma {:induction false} CallsAreBounded(oracle: Oracle, calls: nat, texts: seq<string>)
    ensures calls <= Chunked(oracle, calls, texts).calls
    ensures Chunked(oracle, calls, texts).calls <= calls + 5 * ((|texts| + 19) / 20)
    decreases |texts|
  {
    if texts == [] {
    } else {
      var first := Retry(oracle, calls, Head(texts), 0);
      OneBlockFewer(|texts|, |Tail(texts)|);
      CallsAreBounded(oracle, first.calls, Tail(texts));
    }
  }

  /** vs holds, in order, the embeddings of some of the texts: at most one vector a text. */
  ghost predicate IsSelection(vs: seq<Vector>, texts: seq<string>, embed: string -> Vector)
    decreases |texts|
  {
    vs == [] ||
    (texts != [] && ((vs[0] == embed(texts[0]) && IsSelection(vs[1..], texts[1..], embed))
                     || IsSelection(vs, texts[1..], embed)))
  }

  ghost predicate InOrder(oracle: Oracle, embed: string -> Vector) {
    forall n: nat, texts: seq<string> ::
      oracle(n, texts).Vectors? ==> IsSelection(oracle(n, texts).vectors, texts, embed)
  }

  ghost predicate Embeds(vs: seq<Vector>, texts: seq<string>, embed: string -> Vector) {
    |vs| == |texts| && forall k :: 0 <= k < |vs| ==> vs[k] == embed(texts[k])
  }

  /** A selection is never longer than the texts, and a full one misses none of them. */
  lemma {:induction false} FullSelection(vs: seq<Vector>, texts: seq<string>, embed: string -> Vector)
    requires IsSelection(vs, texts, embed)
    ensures |vs| <= |texts|
    ensures |vs| == |texts| ==> Embeds(vs, texts, embed)
    decreases |texts|
  {
    if vs == [] {
    } else {
      if vs[0] == embed(texts[0]) && IsSelection(vs[1..], texts[1..], embed) {
        FullSelection(vs[1..], texts[1..], embed);
        if |vs| == |texts| {
          forall k | 0 <= k < |vs| ensures vs[k] == embed(texts[k]) {
            if k > 0 { assert vs[k] == vs[1..][k - 1] && texts[k] == texts[1..][k - 1]; }
          }
        }
      } else {
        FullSelection(vs, texts[1..], embed);
      }
    }
  }

  lemma EmbedsSum(vs: seq<Vector>, ws: seq<Vector>, a: seq<string>, b: seq<string>, embed: string -> Vector)
    requires Embeds(vs, a, embed) && Embeds(ws, b, embed)
    ensures Embeds(vs + ws, a + b, embed)
  {}

  /** The one check on the total count forces every sub-batch to be complete and paired. */
  lemma {:induction false} TotalCountForcesPairing(oracle: Oracle, calls: nat, texts: seq<string>,
                                                   embed: string -> Vector)
    requires InOrder(oracle, embed)
    requires Chunked(oracle, calls, texts).answer.Vectors?
    ensures |Chunked(oracle, calls, texts).answer.vectors| <= |texts|
    ensures |Chunked(oracle, calls, texts).answer.vectors| == |texts|
            ==> Embeds(Chunked(oracle, calls, texts).answer.vectors, texts, embed)
    decreases |texts|
  {
    if texts == [] {
    } else {
      var first := Retry(oracle, calls, Head(texts), 0);
      FullSelection(first.answer.vectors, Head(texts), embed);
      TotalCountForcesPairing(oracle, first.calls, Tail(texts), embed);
      var rest := Chunked(oracle, first.calls, Tail(texts));
      assert texts == Head(texts) + Tail(texts);
      if |first.answer.vectors| + |rest.answer.vectors| == |texts| {
        EmbedsSum(first.answer.vectors, rest.answer.vectors, Head(texts), Tail(texts), embed);
      }
    }
  }

  // ----- one batch -----

  function Texts(items: seq<Item>): (r: seq<string>)
    ensures |r| == |items| && forall k :: 0 <= k < |r| ==> r[k] == items[k].1
  {
    seq(|items|, k requires 0 <= k < |items| => items[k].1)
  }

  function IndexOf(items: seq<Item>, hash: string): (k: nat)
    ensures k <= |items|
    ensures k < |items| ==> items[k].0 == hash
    ensures forall j :: 0 <= j < k ==> items[j].0 != hash
  {
    if items == [] then 0
    else if items[0].0 == hash then 0
    else 1 + IndexOf(items[1..], hash)
  }

  /** Assignment to an insertion-ordered dict: the content is replaced in place. */
  function Put(items: seq<Item>, item: Item): seq<Item> {
    var k := IndexOf(items, item.0);
    if k < |items| then items[k := item] else items + [item]
  }

  /** The ordered dict of the first n items whose hash is not cached. */
  function ToEmbed(store: Store, version: string, items: seq<Item>, n: nat): seq<Item>
    requires n <= |items|
  {
    if n == 0 then []
    else
      var before := ToEmbed(store, version, items, n - 1);
      if (items[n - 1].0, version) in store then before else Put(before, items[n - 1])
  }

  /** The cache-hit entries written while the dict is built. */
  function Hits(store: Store, version: string, items: seq<Item>, n: nat): map<string, bool>
    requires n <= |items|
  {
    if n == 0 then map[]
    else
      var before := Hits(store, version, items, n - 1);
      if (items[n - 1].0, version) in store then before[items[n - 1].0 := true] else before
  }

  /** INSERT ... ON CONFLICT DO NOTHING. */
  function Upsert(store: Store, hash: string, version: string, vector: Vector): Store {
    if (hash, version) in store then store else store[(hash, version) := vector]
  }

  function UpsertFirst(store: Store, version: string, items: seq<Item>, vs: seq<Vector>, n: nat): Store
    requires n <= |items| == |vs|
  {
    if n == 0 then store
    else Upsert(UpsertFirst(store, version, items, vs, n - 1), items[n - 1].0, version, vs[n - 1])
  }

  function Misses(items: seq<Item>, n: nat, hits: map<string, bool>): map<string, bool>
    requires n <= |items|
  {
    if n == 0 then hits else Misses(items, n - 1, hits)[items[n - 1].0 := false]
  }

  /** The whole call of embed_and_store_batch. */
  function Run(store: Store, oracle: Oracle, calls: nat, items: seq<Item>, version: string, life: nat): Batch {
    var todo := ToEmbed(store, version, items, |items|);
    var hits := Hits(store, version, items, |items|);
    if todo == [] then Batch(store, Done(hits), calls, life)
    else
      var reply := Chunked(oracle, calls, Texts(todo));
      if !reply.answer.Vectors? || |reply.answer.vectors| != |todo| then
        Batch(store, Raised, reply.calls, life)
      else
        var vs := reply.answer.vectors;
        if life < |todo| then
          Batch(UpsertFirst(store, version, todo, vs, life), Killed, reply.calls, 0)
        else
          Batch(UpsertFirst(store, version, todo, vs, |todo|),
                Done(Misses(todo, |todo|, hits)), reply.calls, life - |todo|)
  }

  // ----- lemmas about a batch -----

  ghost predicate Mentions(items: seq<Item>, n: nat, hash: string)
    requires n <= |items|
  {
    exists k :: 0 <= k < n && items[k].0 == hash
  }

  ghost predicate DistinctHashes(items: seq<Item>) {
    forall i, j :: 0 <= i < j < |items| ==> items[i].0 != items[j].0
  }

  lemma {:induction false} MentionsNext(items: seq<Item>, n: nat, hash: string)
    requires 0 < n <= |items|
    ensures Mentions(items, n, hash) <==> Mentions(items, n - 1, hash) || items[n - 1].0 == hash
  {}

  /** Assignment to the dict keeps its keys distinct and adds at most the one key. */
  lemma PutMeaning(items: seq<Item>, item: Item, hash: string)
    requires DistinctHashes(items)
    ensures DistinctHashes(Put(items, item))
    ensures Mentions(Put(items, item), |Put(items, item)|, hash) <==> Mentions(items, |items|, hash) || item.0 == hash
    ensures forall x :: x in Put(items, item) ==> x in items || x == item
  {
    var k, after := IndexOf(items, item.0), Put(items, item);
    assert after[k] == item;
    assert forall j :: 0 <= j < |items| ==> after[j].0 == items[j].0;
    if k == |items| {
      MentionsNext(after, |after|, hash);
    }
    if Mentions(items, |items|, hash) {
      var j :| 0 <= j < |items| && items[j].0 == hash;
      assert after[j].0 == hash;
    }
  }

  /** The dict holds every uncached hash of the batch once, and no other hash. */
  lemma {:induction false} ToEmbedIsExact(store: Store, version: string, items: seq<Item>, n: nat, hash: string)
    requires n <= |items|
    ensures var todo := ToEmbed(store, version, items, n);
            && DistinctHashes(todo)
            && (Mentions(todo, |todo|, hash) <==> Mentions(items, n, hash) && (hash, version) !in store)
            && forall x :: x in todo ==> x in items
  {
    if n == 0 {
    } else {
      ToEmbedIsExact(store, version, items, n - 1, hash);
      MentionsNext(items, n, hash);
      if (items[n - 1].0, version) !in store {
        PutMeaning(ToEmbed(store, version, items, n - 1), items[n - 1], hash);
      }
    }
  }

  lemma {:induction false} HitsAreCached(store: Store, version: string, items: seq<Item>, n: nat, hash: string)
    requires n <= |items|
    ensures hash in Hits(store, version, items, n) <==> Mentions(items, n, hash) && (hash, version) in store
    ensures hash in Hits(store, version, items, n) ==> Hits(store, version, items, n)[hash]
  {
    if n == 0 {
    } else {
      HitsAreCached(store, version, items, n - 1, hash);
      assert Mentions(items, n, hash) <==> Mentions(items, n - 1, hash) || items[n - 1].0 == hash;
    }
  }

  lemma {:induction false} MissesAreFalse(items: seq<Item>, n: nat, hits: map<string, bool>, hash: string)
    requires n <= |items|
    ensures Mentions(items, n, hash) ==> hash in Misses(items, n, hits) && !Misses(items, n, hits)[hash]
    ensures !Mentions(items, n, hash) ==>
              (hash in Misses(items, n, hits) <==> hash in hits)
              && (hash in hits ==> Misses(items, n, hits)[hash] == hits[hash])
  {
    if n == 0 {
    } else {
      MissesAreFalse(items, n - 1, hits, hash);
      assert Mentions(items, n, hash) <==> Mentions(items, n - 1, hash) || items[n - 1].0 == hash;
    }
  }

  /** Upserts add exactly the first n hashes and never change an entry. */
  lemma {:induction false} UpsertsOnlyAdd(store: Store, version: string, items: seq<Item>, vs: seq<Vector>, n: nat)
    requires n <= |items| == |vs|
    ensures forall key :: key in UpsertFirst(store, version, items, vs, n)
              <==> key in store || (key.1 == version && Mentions(items, n, key.0))
    ensures forall key :: key in store ==> UpsertFirst(store, version, items, vs, n)[key] == store[key]
    ensures forall key :: key in UpsertFirst(store, version, items, vs, n) && key !in store ==>
              exists k :: 0 <= k < n && key == (items[k].0, version)
                          && UpsertFirst(store, version, items, vs, n)[key] == vs[k]
  {
    if n == 0 {
    } else {
      UpsertsOnlyAdd(store, version, items, vs, n - 1);
      var before := UpsertFirst(store, version, items, vs, n - 1);
      var after := UpsertFirst(store, version, items, vs, n);
      forall hash: string
        ensures Mentions(items, n, hash) <==> Mentions(items, n - 1, hash) || items[n - 1].0 == hash
      {}
      forall key | key in after && key !in store
        ensures exists k :: 0 <= k < n && key == (items[k].0, version) && after[key] == vs[k]
      {
        if key in before {
          var k :| 0 <= k < n - 1 && key == (items[k].0, version) && before[key] == vs[k];
          assert after[key] == vs[k];
        } else {
          assert key == (items[n - 1].0, version);
        }
      }
    }
  }

  /**
   A finished batch leaves every hash of the batch in the store and reports a hit for
   exactly the hashes that were there before; whatever the outcome, no entry is lost.
   */
  lemma FinishedBatchCoversAll(store: Store, oracle: Oracle, calls: nat, items: seq<Item>, version: string,
                               life: nat, hash: string)
    ensures var b := Run(store, oracle, calls, items, version, life);
            (forall key :: key in store ==> key in b.store && b.store[key] == store[key]) &&
            (b.outcome.Done? ==>
              (Mentions(items, |items|, hash) ==> (hash, version) in b.store) &&
              (hash in b.outcome.hits <==> Mentions(items, |items|, hash)) &&
              (hash in b.outcome.hits ==> (b.outcome.hits[hash] <==> (hash, version) in store)))
  {
    var todo := ToEmbed(store, version, items, |items|);
    var hits := Hits(store, version, items, |items|);
    ToEmbedIsExact(store, version, items, |items|, hash);
    HitsAreCached(store, version, items, |items|, hash);
    MissesAreFalse(todo, |todo|, hits, hash);
    var reply := Chunked(oracle, calls, Texts(todo));
    if reply.answer.Vectors? && |reply.answer.vectors| == |todo| {
      UpsertsOnlyAdd(store, version, todo, reply.answer.vectors, |todo|);
      if life < |todo| { UpsertsOnlyAdd(store, version, todo, reply.answer.vectors, life); }
    }
  }

  /** A provider failure or a count mismatch stores nothing at all. */
  lemma FailureStoresNothing(store: Store, oracle: Oracle, calls: nat, items: seq<Item>, version: string, life: nat)
    ensures var b := Run(store, oracle, calls, items, version, life);
            var todo := ToEmbed(store, version, items, |items|);
            var reply := Chunked(oracle, calls, Texts(todo));
            (b.outcome.Raised? <==>
              todo != [] && !(reply.answer.Vectors? && |reply.answer.vectors| == |todo|)) &&
            (b.outcome.Raised? ==> b.store == store) &&
            b.calls <= calls + 5 * ((|todo| + 19) / 20)
  {
    CallsAreBounded(oracle, calls, Texts(ToEmbed(store, version, items, |items|)));
  }

  /** Every entry of this model version is the embedding of the content with that hash. */
  ghost predicate Sound(store: Store, version: string, hash: string -> string, embed: string -> Vector) {
    forall content: string :: (hash(content), version) in store ==>
      store[(hash(content), version)] == embed(content)
  }

  ghost predicate Injective(hash: string -> string) {
    forall a: string, b: string :: hash(a) == hash(b) ==> a == b
  }

  /**
   With an in-order provider, each stored vector is that of its own content, also when the
   worker dies between two upserts.
   */
  lemma StoredVectorsAreTheirOwn(store: Store, oracle: Oracle, calls: nat, items: seq<Item>, version: string,
                                 life: nat, hash: string -> string, embed: string -> Vector)
    requires InOrder(oracle, embed) && Injective(hash) && Sound(store, version, hash, embed)
    requires AreHashed(items, hash)
    ensures Sound(Run(store, oracle, calls, items, version, life).store, version, hash, embed)
  {
    var todo := ToEmbed(store, version, items, |items|);
    TodoIsHashed(store, version, items, hash);
    var b := Run(store, oracle, calls, items, version, life);
    var reply := Chunked(oracle, calls, Texts(todo));
    if reply.answer.Vectors? && |reply.answer.vectors| == |todo| {
      var vs := reply.answer.vectors;
      TotalCountForcesPairing(oracle, calls, Texts(todo), embed);
      var n := if life < |todo| then life else |todo|;
      forall content: string | (hash(content), version) in b.store
        ensures b.store[(hash(content), version)] == embed(content)
      {
        NewEntryIsItsOwn(store, version, todo, vs, n, hash, embed, content);
      }
    }
  }

  ghost predicate AreHashed(items: seq<Item>, hash: string -> string) {
    forall k :: 0 <= k < |items| ==> items[k].0 == hash(items[k].1)
  }

  lemma TodoIsHashed(store: Store, version: string, items: seq<Item>, hash: string -> string)
    requires AreHashed(items, hash)
    ensures AreHashed(ToEmbed(store, version, items, |items|), hash)
  {
    var todo := ToEmbed(store, version, items, |items|);
    ToEmbedIsExact(store, version, items, |items|, "");
    forall k | 0 <= k < |todo| ensures todo[k].0 == hash(todo[k].1) {
      assert todo[k] in items;
    }
  }

  lemma NewEntryIsItsOwn(store: Store, version: string, todo: seq<Item>, vs: seq<Vector>, n: nat,
                         hash: string -> string, embed: string -> Vector, content: string)
    requires n <= |todo| == |vs| && Embeds(vs, Texts(todo), embed) && Injective(hash) && Sound(store, version, hash, embed)
    requires AreHashed(todo, hash)
    requires (hash(content), version) in UpsertFirst(store, version, todo, vs, n)
    ensures UpsertFirst(store, version, todo, vs, n)[(hash(content), version)] == embed(content)
  {
    var key, after := (hash(content), version), UpsertFirst(store, version, todo, vs, n);
    UpsertsOnlyAdd(store, version, todo, vs, n);
    if key !in store {
      var k :| 0 <= k < n && key == (todo[k].0, version) && after[key] == vs[k];
      assert vs[k] == embed(Texts(todo)[k]);
    }
  }

  // ----- the imperative form -----

  /** The Gemini client; `requests` records every call. */
  class Provider {
    const answer: Oracle
    var requests: seq<seq<string>>

    constructor (answer: Oracle)
      ensures this.answer == answer && requests == []
    {
      this.answer := answer;
      requests := [];
    }

    method EmbedBatch(texts: seq<string>) returns (a: Answer)
      modifies this
      ensures a == answer(|old(requests)|, texts)
      ensures requests == old(requests) + [texts]
    {
      a := answer(|requests|, texts);
      requests := requests + [texts];
    }
  }

  /** The embeddings table. */
  class Cache {
    var store: Store

    constructor ()
      ensures store == map[]
    {
      store := map[];
    }

    method GetCachedContentHashes(hashes: seq<string>, version: string) returns (cached: set<string>)
      ensures forall h :: h in cached <==> h in hashes && (h, version) in store
    {
      cached := set h | h in hashes && (h, version) in store;
    }

    method UpsertEmbedding(hash: string, version: string, vector: Vector)
      modifies this
      ensures store == Upsert(old(store), hash, version, vector)
    {
      if (hash, version) !in store {
        store := store[(hash, version) := vector];
      }
    }
  }

  /** A request holds twenty consecutive texts from a multiple of twenty on, or the rest of them. */
  predicate IsBlock(request: seq<string>, texts: seq<string>) {
    exists i :: 0 <= i < |texts| && BlockFrom(request, texts, i)
  }

  predicate BlockFrom(request: seq<string>, texts: seq<string>, i: nat)
    requires i < |texts|
  {
    i % 20 == 0 && request == texts[i..if i + 20 <= |texts| then i + 20 else |texts|]
  }

  /** The texts of the requests from number `first` up to `end` that were answered with vectors. */
  function Served(oracle: Oracle, requests: seq<seq<string>>, first: nat, end: nat): seq<string>
    requires first <= end <= |requests|
    decreases end
  {
    if first == end then []
    else Served(oracle, requests, first, end - 1)
         + if oracle(end - 1, requests[end - 1]).Vectors? then requests[end - 1] else []
  }

  /** Those vectors. */
  function Received(oracle: Oracle, requests: seq<seq<string>>, first: nat, end: nat): seq<Vector>
    requires first <= end <= |requests|
    decreases end
  {
    if first == end then []
    else Received(oracle, requests, first, end - 1)
         + match oracle(end - 1, requests[end - 1]) case Vectors(vectors) => vectors case _ => []
  }

  /** The request was sent at most five times: only a 429 is followed by another try, and only the fifth 429 is final. */
  ghost predicate Tried(oracle: Oracle, before: seq<seq<string>>, after: seq<seq<string>>, request: seq<string>, a: Answer) {
    && before <= after && |before| < |after| <= |before| + 5
    && (forall k :: |before| <= k < |after| ==> after[k] == request)
    && (forall k :: |before| <= k < |after| - 1 ==> oracle(k, after[k]) == ApiError(429))
    && a == oracle(|after| - 1, request)
    && (a == ApiError(429) ==> |after| == |before| + 5)
  }

  /** What the requests since `before` tell about the first `done` texts. */
  ghost predicate Sent(oracle: Oracle, before: seq<seq<string>>, after: seq<seq<string>>, texts: seq<string>,
                       done: nat, vectors: seq<Vector>)
    requires done <= |texts|
  {
    && before <= after
    && (forall k :: |before| <= k < |after| ==> IsBlock(after[k], texts))
    && Served(oracle, after, |before|, |after|) == texts[..done]
    && Received(oracle, after, |before|, |after|) == vectors
  }

  /** A request is followed by another one only if it was answered with vectors, or with a 429 and is sent again. */
  ghost predicate GoesOn(oracle: Oracle, requests: seq<seq<string>>, k: nat)
    requires k < |requests|
  {
    oracle(k, requests[k]).Vectors?
    || (oracle(k, requests[k]) == ApiError(429) && k + 1 < |requests| && requests[k + 1] == requests[k])
  }

  ghost predicate AllGoOn(oracle: Oracle, requests: seq<seq<string>>, first: nat, end: nat)
    requires end <= |requests|
  {
    forall k :: first <= k < end ==> GoesOn(oracle, requests, k)
  }

  /** The answer is what the requests got: every text served, in order, or the last request's failure. */
  ghost predicate IsAnswer(oracle: Oracle, before: seq<seq<string>>, after: seq<seq<string>>, texts: seq<string>, a: Answer) {
    if a.Vectors? then Sent(oracle, before, after, texts, |texts|, a.vectors) && AllGoOn(oracle, after, |before|, |after|)
    else
      && |before| < |after| && AllGoOn(oracle, after, |before|, |after| - 1)
      && a == oracle(|after| - 1, after[|after| - 1])
      && exists done, vectors :: 0 <= done < |texts| && Sent(oracle, before, after, texts, done, vectors)
  }

  lemma {:induction false} LogOfTries(oracle: Oracle, first: nat, before: seq<seq<string>>, after: seq<seq<string>>,
                                      request: seq<string>, a: Answer)
    requires first <= |before| && Tried(oracle, before, after, request, a)
    ensures Served(oracle, after, first, |after|)
         == Served(oracle, before, first, |before|) + if a.Vectors? then request else []
    ensures Received(oracle, after, first, |after|)
         == Received(oracle, before, first, |before|) + match a case Vectors(vectors) => vectors case _ => []
  {
    for n := first to |before|
      invariant Served(oracle, after, first, n) == Served(oracle, before, first, n)
      invariant Received(oracle, after, first, n) == Received(oracle, before, first, n)
    {
      assert after[n] == before[n];
    }
    for n := |before| to |after| - 1
      invariant Served(oracle, after, first, n) == Served(oracle, before, first, |before|)
      invariant Received(oracle, after, first, n) == Received(oracle, before, first, |before|)
    {}
  }

  lemma BlockSent(oracle: Oracle, before: seq<seq<string>>, mid: seq<seq<string>>, after: seq<seq<string>>,
                  texts: seq<string>, i: nat, request: seq<string>, vectors: seq<Vector>, a: Answer)
    requires i < |texts| && BlockFrom(request, texts, i)
    requires Sent(oracle, before, mid, texts, i, vectors) && Tried(oracle, mid, after, request, a)
    ensures a.Vectors? ==> Sent(oracle, before, after, texts, i + |request|, vectors + a.vectors)
    ensures !a.Vectors? ==> Sent(oracle, before, after, texts, i, vectors)
  {
    LogOfTries(oracle, |before|, mid, after, request, a);
    assert texts[..i] + request == texts[..i + |request|];
    forall k | |before| <= k < |after| ensures IsBlock(after[k], texts) {
      if k < |mid| { assert after[k] == mid[k]; } else { assert after[k] == request; }
    }
  }

  lemma TriesGoOn(oracle: Oracle, first: nat, mid: seq<seq<string>>, after: seq<seq<string>>, request: seq<string>, a: Answer)
    requires first <= |mid| && AllGoOn(oracle, mid, first, |mid|) && Tried(oracle, mid, after, request, a)
    ensures AllGoOn(oracle, after, first, if a.Vectors? then |after| else |after| - 1)
  {
    forall k | first <= k < if a.Vectors? then |after| else |after| - 1 ensures GoesOn(oracle, after, k) {
      if k < |mid| {
        assert GoesOn(oracle, mid, k) && after[k] == mid[k];
        if k + 1 < |mid| { assert after[k + 1] == mid[k + 1]; }
      }
    }
  }

  /** The text is the content of an item of the batch that is not in the store. */
  predicate IsMissing(text: string, items: seq<Item>, version: string, store: Store) {
    exists i :: 0 <= i < |items| && items[i].1 == text && (items[i].0, version) !in store
  }

  lemma TodoItemIsMissing(items: seq<Item>, version: string, store: Store, k: nat)
    requires k < |ToEmbed(store, version, items, |items|)|
    ensures IsMissing(ToEmbed(store, version, items, |items|)[k].1, items, version, store)
  {
    var todo := ToEmbed(store, version, items, |items|);
    ToEmbedIsExact(store, version, items, |items|, todo[k].0);
    assert Mentions(todo, |todo|, todo[k].0) && todo[k] in items;
  }

  lemma BlockHolds(request: seq<string>, texts: seq<string>)
    requires IsBlock(request, texts)
    ensures 0 < |request| <= 20
    ensures forall text :: text in request ==> text in texts
  {
    var i :| 0 <= i < |texts| && BlockFrom(request, texts, i);
  }

  lemma TodoIsMissing(items: seq<Item>, version: string, store: Store, todo: seq<Item>, request: seq<string>)
    requires todo == ToEmbed(store, version, items, |items|) && IsBlock(request, Texts(todo))
    ensures 0 < |request| <= 20
    ensures forall text :: text in request ==> IsMissing(text, items, version, store)
  {
    BlockHolds(request, Texts(todo));
    forall text | text in request ensures IsMissing(text, items, version, store) {
      var k :| 0 <= k < |todo| && Texts(todo)[k] == text;
      TodoItemIsMissing(items, version, store, k);
    }
  }

  /** The hashes of the batch that are not in the store. */
  function Missing(items: seq<Item>, version: string, store: Store): set<string> {
    set k | 0 <= k < |items| && (items[k].0, version) !in store :: items[k].0
  }

  function Hashes(items: seq<Item>, n: nat): set<string>
    requires n <= |items|
  {
    set k | 0 <= k < n :: items[k].0
  }

  lemma {:induction false} DistinctCount(items: seq<Item>)
    requires DistinctHashes(items)
    ensures |Hashes(items, |items|)| == |items|
  {
    for n := 0 to |items|
      invariant |Hashes(items, n)| == n
    {
      assert Hashes(items, n + 1) == Hashes(items, n) + {items[n].0};
    }
  }

  lemma TodoCount(items: seq<Item>, version: string, store: Store)
    ensures |ToEmbed(store, version, items, |items|)| == |Missing(items, version, store)|
  {
    var todo := ToEmbed(store, version, items, |items|);
    ToEmbedIsExact(store, version, items, |items|, "");
    DistinctCount(todo);
    forall hash: string ensures hash in Hashes(todo, |todo|) <==> hash in Missing(items, version, store) {
      ToEmbedIsExact(store, version, items, |items|, hash);
      assert hash in Hashes(todo, |todo|) <==> Mentions(todo, |todo|, hash);
      assert hash in Missing(items, version, store) <==> Mentions(items, |items|, hash) && (hash, version) !in store;
    }
    assert Hashes(todo, |todo|) == Missing(items, version, store);
  }

  lemma {:induction false} UpsertsCount(store: Store, version: string, items: seq<Item>, vs: seq<Vector>, n: nat)
    requires n <= |items| == |vs| && DistinctHashes(items)
    requires forall k :: 0 <= k < |items| ==> (items[k].0, version) !in store
    ensures |UpsertFirst(store, version, items, vs, n)| == |store| + n
  {
    for k := 0 to n
      invariant |UpsertFirst(store, version, items, vs, k)| == |store| + k
    {
      UpsertsOnlyAdd(store, version, items, vs, k);
      OneMoreEntry(UpsertFirst(store, version, items, vs, k), items[k].0, version, vs[k]);
    }
  }

  lemma OneMoreEntry(store: Store, hash: string, version: string, vector: Vector)
    requires (hash, version) !in store
    ensures |Upsert(store, hash, version, vector)| == |store| + 1
  {
    assert store[(hash, version) := vector].Keys == store.Keys + {(hash, version)};
  }

  lemma TodoIsNew(store: Store, version: string, items: seq<Item>)
    ensures var todo := ToEmbed(store, version, items, |items|);
            DistinctHashes(todo) && forall k :: 0 <= k < |todo| ==> (todo[k].0, version) !in store
  {
    var todo := ToEmbed(store, version, items, |items|);
    ToEmbedIsExact(store, version, items, |items|, "");
    forall k | 0 <= k < |todo| ensures (todo[k].0, version) !in store {
      ToEmbedIsExact(store, version, items, |items|, todo[k].0);
      assert Mentions(todo, |todo|, todo[k].0);
    }
  }

  /**
   Each new entry costs one transaction: a finished batch has paid for every missing hash, a
   killed one has paid with all it had, and a failed one has paid nothing.
   */
  lemma LifeIsSpent(store: Store, oracle: Oracle, calls: nat, items: seq<Item>, version: string, life: nat)
    ensures var b := Run(store, oracle, calls, items, version, life);
            && |b.store| + b.life == |store| + life
            && (b.outcome.Done? ==> |b.store| == |store| + |Missing(items, version, store)|)
            && (b.outcome.Killed? ==> b.life == 0 && life < |Missing(items, version, store)|)
            && (b.outcome.Raised? ==> b.life == life)
  {
    var todo := ToEmbed(store, version, items, |items|);
    var reply := Chunked(oracle, calls, Texts(todo));
    TodoCount(items, version, store);
    TodoIsNew(store, version, items);
    if reply.answer.Vectors? && |reply.answer.vectors| == |todo| {
      UpsertsCount(store, version, todo, reply.answer.vectors, if life < |todo| then life else |todo|);
    }
  }

  /** The provider failed: its last answer is no list of vectors, or all the vectors together are not one for each missing hash. */
  ghost predicate Fails(oracle: Oracle, before: seq<seq<string>>, after: seq<seq<string>>, missing: set<string>)
    requires |before| <= |after|
  {
    |before| < |after|
    && (!oracle(|after| - 1, after[|after| - 1]).Vectors? || |Received(oracle, after, |before|, |after|)| != |missing|)
  }

  /** Without missing hashes nothing is sent. */
  ghost predicate Calls(oracle: Oracle, before: seq<seq<string>>, after: seq<seq<string>>, missing: set<string>) {
    && before <= after && (|before| == |after| <==> missing == {})
    && AllGoOn(oracle, after, |before|, if |before| < |after| then |after| - 1 else |after|)
    && (|before| < |after| && oracle(|after| - 1, after[|after| - 1]).Vectors? ==>
          |Served(oracle, after, |before|, |after|)| == |missing|)
  }

  lemma CallsOfAnswer(oracle: Oracle, before: seq<seq<string>>, after: seq<seq<string>>, texts: seq<string>, a: Answer,
                      missing: set<string>)
    requires texts != [] && IsAnswer(oracle, before, after, texts, a) && |missing| == |texts|
    ensures Calls(oracle, before, after, missing)
    ensures Fails(oracle, before, after, missing) <==> !(a.Vectors? && |a.vectors| == |texts|)
  {
    if a.Vectors? { assert |before| < |after| && GoesOn(oracle, after, |after| - 1); }
  }

  ghost predicate Refused(oracle: Oracle, before: seq<seq<string>>, now: seq<seq<string>>, request: seq<string>) {
    before <= now && forall k :: |before| <= k < |now| ==> now[k] == request && oracle(k, request) == ApiError(429)
  }

  /** Before attempt number `attempt`. */
  ghost predicate Trying(oracle: Oracle, before: seq<seq<string>>, now: seq<seq<string>>, texts: seq<string>, attempt: nat) {
    && attempt < MAX_RETRIES_PER_SUB_BATCH && |now| == |before| + attempt && Refused(oracle, before, now, texts)
    && Retry(oracle, |before|, texts, 0) == Retry(oracle, |now|, texts, attempt)
  }

  lemma OneTry(oracle: Oracle, before: seq<seq<string>>, now: seq<seq<string>>, texts: seq<string>, attempt: nat)
    requires Trying(oracle, before, now, texts, attempt)
    ensures var a := oracle(|now|, texts);
            if a != ApiError(429) || attempt == MAX_RETRIES_PER_SUB_BATCH - 1
            then Tried(oracle, before, now + [texts], texts, a)
                 && Reply(a, |now + [texts]|) == Retry(oracle, |before|, texts, 0)
            else Trying(oracle, before, now + [texts], texts, attempt + 1)
  {}

  method EmbedWithRetry(provider: Provider, texts: seq<string>) returns (a: Answer)
    modifies provider
    ensures Reply(a, |provider.requests|) == Retry(provider.answer, |old(provider.requests)|, texts, 0)
    ensures Tried(provider.answer, old(provider.requests), provider.requests, texts, a)
  {
    ghost var before := provider.requests;
    var attempt := 0;
    while true
      invariant Trying(provider.answer, before, provider.requests, texts, attempt)
      decreases MAX_RETRIES_PER_SUB_BATCH - attempt
    {
      OneTry(provider.answer, before, provider.requests, texts, attempt);
      a := provider.EmbedBatch(texts);
      if a != ApiError(429) || attempt == MAX_RETRIES_PER_SUB_BATCH - 1 {
        return;
      }
      attempt := attempt + 1;
    }
  }

  /** All vectors so far in front of what the remaining texts give. */
  function Glue(vectors: seq<Vector>, rest: Reply): Reply {
    if rest.answer.Vectors? then Reply(Vectors(vectors + rest.answer.vectors), rest.calls) else rest
  }

  lemma NextBlock(oracle: Oracle, calls: nat, texts: seq<string>, vectors: seq<Vector>)
    requires texts != []
    ensures var first := Retry(oracle, calls, Head(texts), 0);
            Glue(vectors, Chunked(oracle, calls, texts))
            == if first.answer.Vectors? then Glue(vectors + first.answer.vectors, Chunked(oracle, first.calls, Tail(texts)))
               else first
  {
    var first := Retry(oracle, calls, Head(texts), 0);
    if first.answer.Vectors? {
      var rest := Chunked(oracle, first.calls, Tail(texts));
      if rest.answer.Vectors? {
        Associates(vectors, first.answer.vectors, rest.answer.vectors);
      }
    }
  }

  lemma BlockAt(texts: seq<string>, i: nat, end: nat)
    requires i < |texts| && end == if i + MAX_REQUESTS_PER_CALL <= |texts| then i + MAX_REQUESTS_PER_CALL else |texts|
    ensures texts[i..end] == Head(texts[i..])
    ensures Tail(texts[i..]) == if i + MAX_REQUESTS_PER_CALL <= |texts| then texts[i + MAX_REQUESTS_PER_CALL..] else []
  {}

  /** Before text i all texts are served. */
  ghost predicate SentUpTo(oracle: Oracle, before: seq<seq<string>>, now: seq<seq<string>>, texts: seq<string>, i: nat,
                           vectors: seq<Vector>) {
    i % 20 == 0 && Sent(oracle, before, now, texts, if i <= |texts| then i else |texts|, vectors)
    && AllGoOn(oracle, now, |before|, |now|)
  }

  lemma NextSent(oracle: Oracle, before: seq<seq<string>>, mid: seq<seq<string>>, after: seq<seq<string>>,
                 texts: seq<string>, i: nat, request: seq<string>, vectors: seq<Vector>, a: Answer)
    requires i < |texts| && request == texts[i..if i + 20 <= |texts| then i + 20 else |texts|]
    requires SentUpTo(oracle, before, mid, texts, i, vectors) && Tried(oracle, mid, after, request, a)
    ensures if a.Vectors? then SentUpTo(oracle, before, after, texts, i + 20, vectors + a.vectors)
            else IsAnswer(oracle, before, after, texts, a)
  {
    assert BlockFrom(request, texts, i);
    BlockSent(oracle, before, mid, after, texts, i, request, vectors, a);
    TriesGoOn(oracle, |before|, mid, after, request, a);
  }

  function From(texts: seq<string>, i: nat): seq<string> {
    if i <= |texts| then texts[i..] else []
  }

  /** Before text i: the vectors so far and what the remaining texts will give are the whole answer. */
  ghost predicate Sending(oracle: Oracle, before: seq<seq<string>>, now: seq<seq<string>>, texts: seq<string>, i: nat,
                          vectors: seq<Vector>) {
    && SentUpTo(oracle, before, now, texts, i, vectors)
    && Chunked(oracle, |before|, texts) == Glue(vectors, Chunked(oracle, |now|, From(texts, i)))
  }

  lemma OneBlock(oracle: Oracle, before: seq<seq<string>>, mid: seq<seq<string>>, after: seq<seq<string>>,
                 texts: seq<string>, i: nat, end: nat, vectors: seq<Vector>, a: Answer)
    requires i < |texts| && end == if i + MAX_REQUESTS_PER_CALL <= |texts| then i + MAX_REQUESTS_PER_CALL else |texts|
    requires Sending(oracle, before, mid, texts, i, vectors) && Tried(oracle, mid, after, texts[i..end], a)
    requires Reply(a, |after|) == Retry(oracle, |mid|, texts[i..end], 0)
    ensures if a.Vectors? then Sending(oracle, before, after, texts, i + MAX_REQUESTS_PER_CALL, vectors + a.vectors)
            else IsAnswer(oracle, before, after, texts, a) && Reply(a, |after|) == Chunked(oracle, |before|, texts)
  {
    BlockAt(texts, i, end);
    NextBlock(oracle, |mid|, texts[i..], vectors);
    NextSent(oracle, before, mid, after, texts, i, texts[i..end], vectors, a);
  }

  lemma NothingSent(oracle: Oracle, before: seq<seq<string>>, texts: seq<string>)
    ensures Sending(oracle, before, before, texts, 0, [])
  {
    assert texts[0..] == texts;
  }

  lemma AllSent(oracle: Oracle, before: seq<seq<string>>, now: seq<seq<string>>, texts: seq<string>, i: nat,
                vectors: seq<Vector>)
    requires Sending(oracle, before, now, texts, i, vectors) && i >= |texts|
    ensures IsAnswer(oracle, before, now, texts, Vectors(vectors))
    ensures Reply(Vectors(vectors), |now|) == Chunked(oracle, |before|, texts)
  {}

  method EmbedBatchChunked(provider: Provider, texts: seq<string>) returns (a: Answer)
    modifies provider
    ensures Reply(a, |provider.requests|) == Chunked(provider.answer, |old(provider.requests)|, texts)
    ensures IsAnswer(provider.answer, old(provider.requests), provider.requests, texts, a)
  {
    ghost var before := provider.requests;
    var vectors: seq<Vector> := [];
    var i := 0;
    NothingSent(provider.answer, before, texts);
    while i < |texts|
      invariant 0 <= i && Sending(provider.answer, before, provider.requests, texts, i, vectors)
    {
      var end := if i + MAX_REQUESTS_PER_CALL <= |texts| then i + MAX_REQUESTS_PER_CALL else |texts|;
      ghost var mid := provider.requests;
      a := EmbedWithRetry(provider, texts[i..end]);
      ghost var now := provider.requests;
      OneBlock(provider.answer, before, mid, now, texts, i, end, vectors, a);
      if !a.Vectors? {
        return;
      }
      vectors := vectors + a.vectors;
      i := i + MAX_REQUESTS_PER_CALL;
    }
    AllSent(provider.answer, before, provider.requests, texts, i, vectors);
    a := Vectors(vectors);
  }

  /** Each request since `before` holds at most twenty texts, all of them missing. */
  ghost predicate OnlyMissingSent(before: seq<seq<string>>, after: seq<seq<string>>, items: seq<Item>, version: string, store: Store) {
    forall k :: |before| <= k < |after| ==>
      0 < |after[k]| <= 20 && forall text :: text in after[k] ==> IsMissing(text, items, version, store)
  }

  /** What the provider saw of a batch, and whether the batch raised: exactly when the provider failed. */
  ghost predicate BatchTells(oracle: Oracle, before: seq<seq<string>>, after: seq<seq<string>>, items: seq<Item>,
                             version: string, store: Store, raised: bool) {
    && Calls(oracle, before, after, Missing(items, version, store))
    && OnlyMissingSent(before, after, items, version, store)
    && (raised <==> Fails(oracle, before, after, Missing(items, version, store)))
  }

  lemma BatchCalls(oracle: Oracle, before: seq<seq<string>>, after: seq<seq<string>>, items: seq<Item>, version: string,
                   store: Store, todo: seq<Item>, a: Answer)
    requires todo == ToEmbed(store, version, items, |items|)
    requires if todo == [] then before == after else IsAnswer(oracle, before, after, Texts(todo), a)
    ensures BatchTells(oracle, before, after, items, version, store, todo != [] && !(a.Vectors? && |a.vectors| == |todo|))
  {
    TodoCount(items, version, store);
    if todo != [] {
      CallsOfAnswer(oracle, before, after, Texts(todo), a, Missing(items, version, store));
      forall k | |before| <= k < |after|
        ensures 0 < |after[k]| <= 20 && forall text :: text in after[k] ==> IsMissing(text, items, version, store)
      {
        TodoIsMissing(items, version, store, todo, after[k]);
      }
    }
  }

  /** The first loop: the cache hits, and the items to embed. */
  method SplitBatch(cache: Cache, items: seq<Item>, version: string) returns (result: map<string, bool>, todo: seq<Item>)
    ensures todo == ToEmbed(cache.store, version, items, |items|)
    ensures result == Hits(cache.store, version, items, |items|)
  {
    var hashes := seq(|items|, k requires 0 <= k < |items| => items[k].0);
    var cached := cache.GetCachedContentHashes(hashes, version);
    result, todo := map[], [];
    for n := 0 to |items|
      invariant todo == ToEmbed(cache.store, version, items, n)
      invariant result == Hits(cache.store, version, items, n)
    {
      var (hash, content) := items[n];
      assert hashes[n] == hash;
      if hash in cached {
        result := result[hash := true];
      } else {
        todo := Put(todo, (hash, content));
      }
    }
  }

  /** The second loop: one upsert a vector, while the worker lives. */
  method StoreVectors(cache: Cache, version: string, todo: seq<Item>, vectors: seq<Vector>, hits: map<string, bool>, life: nat)
    returns (outcome: Outcome, left: nat)
    requires |vectors| == |todo|
    modifies cache
    ensures cache.store == UpsertFirst(old(cache.store), version, todo, vectors, if life < |todo| then life else |todo|)
    ensures outcome == if life < |todo| then Killed else Done(Misses(todo, |todo|, hits))
    ensures left == if life < |todo| then 0 else life - |todo|
  {
    left := life;
    var result := hits;
    for n := 0 to |todo|
      invariant left == life - n
      invariant cache.store == UpsertFirst(old(cache.store), version, todo, vectors, n)
      invariant result == Misses(todo, n, hits)
    {
      if left == 0 {
        return Killed, left;
      }
      cache.UpsertEmbedding(todo[n].0, version, vectors[n]);
      left := left - 1;
      result := result[todo[n].0 := false];
    }
    outcome := Done(result);
  }

  method EmbedAndStoreBatch(cache: Cache, provider: Provider, items: seq<Item>, version: string, life: nat)
    returns (outcome: Outcome, left: nat)
    modifies cache, provider
    ensures Batch(cache.store, outcome, |provider.requests|, left)
         == Run(old(cache.store), provider.answer, |old(provider.requests)|, items, version, life)
    ensures BatchTells(provider.answer, old(provider.requests), provider.requests, items, version, old(cache.store), outcome.Raised?)
  {
    var hits, todo := SplitBatch(cache, items, version);
    if todo == [] {
      BatchCalls(provider.answer, provider.requests, provider.requests, items, version, cache.store, todo, OtherError);
      return Done(hits), life;
    }
    var a := EmbedBatchChunked(provider, Texts(todo));
    BatchCalls(provider.answer, old(provider.requests), provider.requests, items, version, cache.store, todo, a);
    if !a.Vectors? || |a.vectors| != |todo| {
      return Raised, life;
    }
    outcome, left := StoreVectors(cache, version, todo, a.vectors, hits, life);
  }
}
