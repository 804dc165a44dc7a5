/**
 What a run leaves in the repository row, finished or not: the status, the counters, and the
 base of the next diff. The status ties the runs to the stages of the job protocol.
 */
module IndexStatus {
  import opened Wrappers
  import opened Sequences
  import opened IndexTables
  import opened IndexRuns
  import opened IndexSteps
  import opened IndexTheorems
  import opened IndexExactness
  import opened IndexEdges
  import IndexJobs
  import Embedding

  // ----- the status -----

  /** How many of its five status writes a run has committed, by what its walk has left. */
  function Stage(env: Env, oracle: Embedding.Oracle, w: Run, life: nat): nat {
    if life < 2 then life
    else if !w.alive || w.life == 0 then 2
    else
      var e := AfterBatch(env, oracle, w);
      if !e.alive || e.life == 0 then 3 else if e.life == 1 then 4 else 5
  }

  /** The run after its batch. */
  function AfterBatch(env: Env, oracle: Embedding.Oracle, w: Run): Run {
    EmbedRows(env, oracle, Commit(w, w.t.(repo := w.t.repo.(status := EMBEDDING, filesIndexed := w.processed))))
  }

  lemma StartedStatus(t: Tables, mode: Mode, tree: Tree, calls: nat, life: nat)
    ensures Prepare(mode, tree, t, calls, life).t.repo.status
            == if life == 0 then t.repo.status else if life == 1 then CLONING else PARSING
    ensures life < 2 ==> !Prepare(mode, tree, t, calls, life).alive
  {}

  lemma {:induction false} WalkKeepsRepo(env: Env, mode: Mode, sha: string, walk: seq<string>, n: nat, r: Run)
    requires n <= |walk|
    ensures VisitAll(env, mode, sha, walk, n, r).t.repo == r.t.repo
    ensures !r.alive ==> !VisitAll(env, mode, sha, walk, n, r).alive
  {
    if n == 0 {
    } else {
      WalkKeepsRepo(env, mode, sha, walk, n - 1, r);
    }
  }

  lemma WalkedStatus(env: Env, mode: Mode, t: Tables, calls: nat, sha: string, walk: seq<string>, life: nat)
    ensures var w := Walked(env, mode, t, calls, sha, walk, life);
            && (life < 2 ==> !w.alive)
            && w.t.repo.status == if life == 0 then t.repo.status else if life == 1 then CLONING else PARSING
  {
    StartedStatus(t, mode, env.treeOf(sha), calls, life);
    WalkKeepsRepo(env, mode, sha, walk, |walk|, Prepare(mode, env.treeOf(sha), t, calls, life));
  }

  lemma BatchStatus(env: Env, oracle: Embedding.Oracle, w: Run)
    requires w.alive && w.life > 0
    ensures AfterBatch(env, oracle, w).t.repo.status == EMBEDDING
  {}

  lemma FinishStatus(env: Env, oracle: Embedding.Oracle, mode: Mode, sha: string, w: Run)
    ensures var run := Finish(env, oracle, mode, sha, w);
            if !w.alive || w.life == 0 then !run.alive && run.t.repo.status == w.t.repo.status
            else
              var k := Stage(env, oracle, w, 2);
              && 3 <= k <= 5 && (run.alive <==> k == 5) && run.t.repo.status == [EMBEDDING, STORING, INDEXED][k - 3]
  {
    if w.alive && w.life > 0 { BatchStatus(env, oracle, w); }
  }

  /**
   The status that a run leaves is that of the last write that it has committed, in the
   order of the job protocol's stages, and it finishes exactly with the fifth.
   */
  lemma StatusTells(env: Env, oracle: Embedding.Oracle, calls: nat, mode: Mode, t: Tables, sha: string, walk: seq<string>, life: nat)
    ensures var run := IndexRun(env, oracle, calls, mode, t, sha, walk, life);
            var k := Stage(env, oracle, Walked(env, mode, t, calls, sha, walk, life), life);
            && k <= 5 && (run.alive <==> k == 5)
            && run.t.repo.status == if k == 0 then t.repo.status else IndexJobs.StageStatus(k)
  {
    WalkedStatus(env, mode, t, calls, sha, walk, life);
    FinishStatus(env, oracle, mode, sha, Walked(env, mode, t, calls, sha, walk, life));
  }

  // ----- the counters -----

  /** A run in this mode indexes the file. */
  predicate IsIndexed(env: Env, mode: Mode, tree: Tree, path: string) {
    Eligible(env, tree, path) && (mode.Incremental? && mode.changed != {} ==> path in mode.changed)
  }

  function IndexedBy(env: Env, mode: Mode, tree: Tree): string -> bool {
    path => IsIndexed(env, mode, tree, path)
  }

  lemma {:induction false} WalkCounts(env: Env, mode: Mode, sha: string, walk: seq<string>, n: nat, r: Run)
    requires n <= |walk| && IsWalk(env, env.treeOf(sha), walk) && VisitAll(env, mode, sha, walk, n, r).alive
    ensures VisitAll(env, mode, sha, walk, n, r).processed == r.processed + Rank(walk, IndexedBy(env, mode, env.treeOf(sha)), n)
  {
    if n == 0 {
    } else {
      WalkCounts(env, mode, sha, walk, n - 1, r);
      assert walk[n - 1] in walk;
    }
  }

  lemma EmbedKeepsCounters(env: Env, oracle: Embedding.Oracle, w: Run)
    requires Ready(env, oracle, w).alive
    ensures w.alive && Ready(env, oracle, w).t.repo.filesIndexed == w.processed
    ensures Ready(env, oracle, w).t.repo.chunksIndexed == w.t.repo.chunksIndexed
  {}

  function Chosen(s: seq<string>, p: string -> bool): set<string> {
    set x | x in s && p(x)
  }

  lemma ChooseNext(s: seq<string>, p: string -> bool, x: string)
    requires x !in s
    ensures |Chosen(s + [x], p)| == |Chosen(s, p)| + if p(x) then 1 else 0
  {
    assert Chosen(s + [x], p) == Chosen(s, p) + if p(x) then {x} else {};
  }

  lemma {:induction false} DistinctCount(s: seq<string>, p: string -> bool, n: nat)
    requires n <= |s| && forall i, j :: 0 <= i < j < |s| ==> s[i] != s[j]
    ensures |Chosen(s[..n], p)| == Rank(s, p, n)
  {
    if n == 0 {
      assert Chosen(s[..0], p) == {};
    } else {
      DistinctCount(s, p, n - 1);
      TakeNext(s, n - 1);
      ChooseNext(s[..n - 1], p, s[n - 1]);
    }
  }

  /**
   After a finished run of either kind, files_indexed is the number of files that it has
   indexed. A full run leaves as many file rows, and chunks_indexed is the number of chunks;
   an incremental run leaves chunks_indexed as it was.
   */
  lemma CountersTell(env: Env, oracle: Embedding.Oracle, calls: nat, mode: Mode, t: Tables, sha: string, walk: seq<string>, life: nat)
    requires Inv(env, t) && IsWalk(env, env.treeOf(sha), walk)
    requires IndexRun(env, oracle, calls, mode, t, sha, walk, life).alive
    ensures var u := IndexRun(env, oracle, calls, mode, t, sha, walk, life).t;
            && u.repo.filesIndexed == Rank(walk, IndexedBy(env, mode, env.treeOf(sha)), |walk|)
            && (mode.Full? ==> u.repo.filesIndexed == |u.files| && u.repo.chunksIndexed == |u.chunks|)
            && (mode.Incremental? ==> u.repo.chunksIndexed == t.repo.chunksIndexed)
  {
    var tree, w := env.treeOf(sha), Walked(env, mode, t, calls, sha, walk, life);
    var u := IndexRun(env, oracle, calls, mode, t, sha, walk, life).t;
    EmbedKeepsCounters(env, oracle, w);
    WalkCounts(env, mode, sha, walk, |walk|, Prepare(mode, tree, t, calls, life));
    WalkKeepsRepo(env, mode, sha, walk, |walk|, Prepare(mode, tree, t, calls, life));
    if mode.Full? {
      FullRunReplacesEverything(env, oracle, calls, t, sha, walk, life);
      FileRowsCounted(env, oracle, calls, t, sha, walk, life);
    }
  }

  lemma FileRowsCounted(env: Env, oracle: Embedding.Oracle, calls: nat, t: Tables, sha: string, walk: seq<string>, life: nat)
    requires Inv(env, t) && IsWalk(env, env.treeOf(sha), walk)
    requires IndexRun(env, oracle, calls, Full, t, sha, walk, life).alive
    ensures |IndexRun(env, oracle, calls, Full, t, sha, walk, life).t.files| == Rank(walk, IndexedBy(env, Full, env.treeOf(sha)), |walk|)
  {
    var u, p := IndexRun(env, oracle, calls, Full, t, sha, walk, life).t, IndexedBy(env, Full, env.treeOf(sha));
    DistinctCount(walk, p, |walk|);
    assert walk[..|walk|] == walk;
    forall x ensures x in u.files <==> x in walk && p(x) {
      FullRunExactAt(env, oracle, calls, t, sha, walk, life, x);
    }
    assert u.files.Keys == Chosen(walk, p);
  }

  // ----- rows of a full run -----

  /** Every path that has a row keeps it, with its id. */
  predicate RowsStay(t: Tables, u: Tables) {
    forall p :: p in t.files ==> p in u.files && u.files[p].id == t.files[p].id
  }

  lemma {:induction false} FullWalkKeepsRows(env: Env, sha: string, walk: seq<string>, n: nat, r: Run)
    requires n <= |walk|
    ensures RowsStay(r.t, VisitAll(env, Full, sha, walk, n, r).t)
  {
    if n == 0 {
    } else {
      FullWalkKeepsRows(env, sha, walk, n - 1, r);
    }
  }

  /** A full run that dies has deleted no file row, and one that finishes has given none a new id. */
  lemma FullRunKeepsRows(env: Env, oracle: Embedding.Oracle, calls: nat, t: Tables, sha: string, walk: seq<string>, life: nat)
    requires Inv(env, t) && IsWalk(env, env.treeOf(sha), walk)
    ensures var run := IndexRun(env, oracle, calls, Full, t, sha, walk, life);
            && (!run.alive ==> RowsStay(t, run.t))
            && forall p :: p in t.files && p in run.t.files ==> run.t.files[p].id == t.files[p].id
  {
    FullWalkKeepsRows(env, sha, walk, |walk|, Prepare(Full, env.treeOf(sha), t, calls, life));
    if IndexRun(env, oracle, calls, Full, t, sha, walk, life).alive {
      FullRunReplacesEverything(env, oracle, calls, t, sha, walk, life);
    } else {
      DeadRunTables(env, oracle, calls, Full, t, sha, walk, life);
    }
  }

  // ----- the diff -----

  /**
   What the incremental run makes of its base and its diff. With both, the result is the
   exact index of the new commit if and only if no indexed path lingers; without one of them
   it walks everything, and the result is exact if and only if every indexed path is still a
   regular file.
   */
  lemma DiffDecides(env: Env, oracle: Embedding.Oracle, calls: nat, t: Tables, sha: string, walk: seq<string>,
                    diff: Option<set<string>>, life: nat)
    requires Inv(env, t) && IsWalk(env, env.treeOf(sha), walk)
    requires IndexRun(env, oracle, calls, Incremental(Changed(t, diff)), t, sha, walk, life).alive
    requires t.repo.currentSha.Some? && diff.Some? ==>
               Exact(env, env.treeOf(t.repo.currentSha.value), t)
               && CoversDiff(env.treeOf(t.repo.currentSha.value), env.treeOf(sha), diff.value)
    ensures Exact(env, env.treeOf(sha), IndexRun(env, oracle, calls, Incremental(Changed(t, diff)), t, sha, walk, life).t)
            <==> forall p :: p in t.files ==>
                   if t.repo.currentSha.Some? && diff.Some? then !Lingers(env.treeOf(sha), p)
                   else p in env.treeOf(sha) && env.treeOf(sha)[p].Regular?
  {
    if t.repo.currentSha.Some? && diff.Some? {
      IncrementalRefinesFull(env, oracle, calls, diff.value, t, t.repo.currentSha.value, sha, walk, life);
    } else {
      FallbackIsExactIff(env, oracle, calls, t, sha, walk, life);
    }
  }
}
