/** That indexing runs get done: how many transactions a run needs at most, and what it needs of the provider. */
module IndexProgress {
  import opened Wrappers
  import opened SourceChunks
  import opened IndexTables
  import opened IndexRuns
  import opened IndexSteps
  import opened IndexTheorems
  import opened IndexExactness
  import Embedding

  /** Every block of texts gets one vector a text within its five attempts. */
  ghost predicate Answers(oracle: Embedding.Oracle) {
    forall calls: nat, texts: seq<string> :: GoodReply(Embedding.Retry(oracle, calls, texts, 0), texts)
  }

  predicate GoodReply(reply: Embedding.Reply, texts: seq<string>) {
    reply.answer.Vectors? && |reply.answer.vectors| == |texts|
  }

  lemma {:induction false} AllBlocksAnswer(oracle: Embedding.Oracle, calls: nat, texts: seq<string>)
    requires Answers(oracle)
    ensures GoodReply(Embedding.Chunked(oracle, calls, texts), texts)
    decreases |texts|
  {
    if texts == [] {
    } else {
      var first := Embedding.Retry(oracle, calls, Embedding.Head(texts), 0);
      assert GoodReply(first, Embedding.Head(texts));
      AllBlocksAnswer(oracle, first.calls, Embedding.Tail(texts));
    }
  }

  lemma {:induction false} ToEmbedIsSmall(store: Embedding.Store, version: string, items: seq<Embedding.Item>, n: nat)
    requires n <= |items|
    ensures |Embedding.ToEmbed(store, version, items, n)| <= n
  {
    if n == 0 {
    } else {
      ToEmbedIsSmall(store, version, items, n - 1);
    }
  }

  lemma BatchFinishes(store: Embedding.Store, oracle: Embedding.Oracle, calls: nat, items: seq<Embedding.Item>,
                      version: string, life: nat)
    requires Answers(oracle) && life >= |items|
    ensures var b := Embedding.Run(store, oracle, calls, items, version, life);
            b.outcome.Done? && b.life >= life - |items|
  {
    var todo := Embedding.ToEmbed(store, version, items, |items|);
    ToEmbedIsSmall(store, version, items, |items|);
    AllBlocksAnswer(oracle, calls, Embedding.Texts(todo));
  }

  /** The chunks of the first n walked files that a run indexes. */
  function ChunkTotal(env: Env, mode: Mode, tree: Tree, walk: seq<string>, n: nat): nat
    requires n <= |walk|
  {
    if n == 0 then 0
    else
      var before, a := ChunkTotal(env, mode, tree, walk, n - 1), ActionFor(env, mode, tree, walk[n - 1]);
      if a.Index? then before + |env.chunkFile(a.content, a.language)| else before
  }

  lemma {:induction false} WalkSpends(env: Env, mode: Mode, sha: string, walk: seq<string>, n: nat, r: Run)
    requires n <= |walk| && r.alive && r.life >= n
    ensures var w := VisitAll(env, mode, sha, walk, n, r);
            && w.alive && w.life >= r.life - n
            && |w.rows| == |r.rows| + ChunkTotal(env, mode, env.treeOf(sha), walk, n)
  {
    if n == 0 {
    } else {
      WalkSpends(env, mode, sha, walk, n - 1, r);
    }
  }

  lemma ReadySpends(env: Env, oracle: Embedding.Oracle, w: Run)
    requires Answers(oracle) && w.alive && w.life >= |w.rows| + 2
    ensures Ready(env, oracle, w).alive && Ready(env, oracle, w).life >= w.life - |w.rows| - 2
  {
    var r1 := Commit(w, w.t.(repo := w.t.repo.(status := EMBEDDING, filesIndexed := w.processed)));
    BatchFinishes(r1.t.embeddings, oracle, r1.calls, Items(r1.rows), env.modelVersion, r1.life);
  }

  /**
   A run finishes when the provider answers and the worker survives this many transactions:
   six of its own, one for each walked file and one for each chunk.
   */
  function Needed(env: Env, mode: Mode, sha: string, walk: seq<string>): nat {
    6 + |walk| + ChunkTotal(env, mode, env.treeOf(sha), walk, |walk|)
  }

  lemma RunFinishes(env: Env, oracle: Embedding.Oracle, calls: nat, mode: Mode, t: Tables, sha: string,
                    walk: seq<string>, life: nat)
    requires Answers(oracle) && life >= Needed(env, mode, sha, walk)
    ensures IndexRun(env, oracle, calls, mode, t, sha, walk, life).alive
  {
    var p := Prepare(mode, env.treeOf(sha), t, calls, life);
    assert p.alive && p.life >= life - 3 && p.rows == [];
    WalkSpends(env, mode, sha, walk, |walk|, p);
    ReadySpends(env, oracle, Walked(env, mode, t, calls, sha, walk, life));
  }

  /**
   So after any history of crashes one more full run, given a provider that answers and a
   worker that survives, leaves the exact index.
   */
  lemma OneGoodRunHeals(env: Env, t: Tables, jobs: seq<Job>, last: Job)
    requires Inv(env, t) && Walks(env, jobs) && IsWalk(env, env.treeOf(last.sha), last.walk)
    requires last.mode.Full? && Answers(last.oracle) && last.life >= Needed(env, Full, last.sha, last.walk)
    ensures Exact(env, env.treeOf(last.sha), RunJob(env, After(env, t, jobs), last).t)
  {
    RunFinishes(env, last.oracle, last.calls, Full, After(env, t, jobs), last.sha, last.walk, last.life);
    FullIndexingHeals(env, t, jobs, last);
  }
}
