/** What a dead attempt of an incremental run leaves for a later attempt with another head. */
module IndexRetries {
  import opened Wrappers
  import opened SourceChunks
  import opened IndexTables
  import opened IndexRuns
  import opened IndexSteps
  import opened IndexTheorems
  import opened IndexExactness

  function Prepared(env: Env, t: Tables, job: Job): Run {
    Prepare(job.mode, env.treeOf(job.sha), t, job.calls, job.life)
  }

  /** The first n files of the job's walk. */
  function Visited(env: Env, t: Tables, job: Job, n: nat): Run
    requires n <= |job.walk|
  {
    VisitAll(env, job.mode, job.sha, job.walk, n, Prepared(env, t, job))
  }

  /** The job has come to file k of its walk, which is this path, and committed what it does there. */
  predicate VisitedAt(env: Env, t: Tables, job: Job, path: string, k: nat) {
    k < |job.walk| && job.walk[k] == path && !ActionFor(env, job.mode, env.treeOf(job.sha), path).Skip?
    && Visited(env, t, job, k + 1).alive
  }

  /** The job has deleted, purged or rewritten the path. */
  ghost predicate ActedOn(env: Env, t: Tables, job: Job, path: string) {
    (path in Gone(job.mode, env.treeOf(job.sha)) && Prepared(env, t, job).alive)
    || exists k: nat :: VisitedAt(env, t, job, path, k)
  }

  // ----- a job that has not acted on the path -----

  lemma DeadPrepareKeepsAll(env: Env, t: Tables, job: Job, path: string)
    requires Inv(env, t)
    requires path in Gone(job.mode, env.treeOf(job.sha)) ==> !Prepared(env, t, job).alive
    ensures SameAt(t, Prepared(env, t, job).t, path)
  {
    PrepareStep(env, job.mode, env.treeOf(job.sha), t, job.calls, job.life);
  }

  /** One visit leaves a path alone that it is not about, or that it does not get to change. */
  lemma VisitKeeps(env: Env, t: Tables, job: Job, path: string, n: nat)
    requires Inv(env, t) && IsWalk(env, env.treeOf(job.sha), job.walk) && n < |job.walk|
    requires !VisitedAt(env, t, job, path, n)
    ensures SameAt(Visited(env, t, job, n).t, Visited(env, t, job, n + 1).t, path)
  {
    var mid := Visited(env, t, job, n);
    PrepareStep(env, job.mode, env.treeOf(job.sha), t, job.calls, job.life);
    WalkKeepsRunInv(env, job.mode, job.sha, t.nextId, job.walk, n, Prepared(env, t, job));
    if path == job.walk[n] {
      VisitWithoutEffect(env, job.mode, job.sha, path, mid);
    } else {
      VisitElsewhere(env, job.mode, job.sha, path, job.walk[n], mid);
    }
  }

  lemma VisitWithoutEffect(env: Env, mode: Mode, sha: string, path: string, r: Run)
    requires ActionFor(env, mode, env.treeOf(sha), path).Skip? || !Visit(env, mode, sha, path, r).alive
    ensures Visit(env, mode, sha, path, r).t == r.t
  {}

  lemma {:induction false} UnactedWalkKeeps(env: Env, t: Tables, job: Job, path: string, n: nat)
    requires Inv(env, t) && IsWalk(env, env.treeOf(job.sha), job.walk) && n <= |job.walk|
    requires forall k: nat :: !VisitedAt(env, t, job, path, k)
    ensures SameAt(Prepared(env, t, job).t, Visited(env, t, job, n).t, path)
  {
    if n == 0 {
    } else {
      UnactedWalkKeeps(env, t, job, path, n - 1);
      VisitKeeps(env, t, job, path, n - 1);
    }
  }

  lemma UnactedJobKeeps(env: Env, t: Tables, job: Job, path: string)
    requires Inv(env, t) && IsWalk(env, env.treeOf(job.sha), job.walk)
    requires !RunJob(env, t, job).alive && !ActedOn(env, t, job, path)
    ensures SameAt(t, RunJob(env, t, job).t, path)
  {
    DeadPrepareKeepsAll(env, t, job, path);
    UnactedWalkKeeps(env, t, job, path, |job.walk|);
    DeadRunTables(env, job.oracle, job.calls, job.mode, t, job.sha, job.walk, job.life);
  }

  // ----- a job that has -----

  /** What a job leaves at a path on which it has acted: a row without chunks where it has upserted the file, else no row. */
  predicate LeftBy(env: Env, job: Job, t: Tables, path: string) {
    match ActionFor(env, job.mode, env.treeOf(job.sha), path)
    case Index(language, size, content) =>
      path in t.files && t.files[path].contentHash == env.hash(content) && t.files[path].size == size
      && ChunksOf(t.chunks, t.files[path].id) == []
    case _ => path !in t.files
  }

  lemma {:induction false} LaterVisitsKeep(env: Env, t: Tables, job: Job, path: string, k: nat, n: nat)
    requires Inv(env, t) && IsWalk(env, env.treeOf(job.sha), job.walk)
    requires k < n <= |job.walk| && job.walk[k] == path
    ensures SameAt(Visited(env, t, job, k + 1).t, Visited(env, t, job, n).t, path)
  {
    for m := k + 1 to n
      invariant SameAt(Visited(env, t, job, k + 1).t, Visited(env, t, job, m).t, path)
    {
      VisitKeeps(env, t, job, path, m);
    }
  }

  lemma VisitLeaves(env: Env, t: Tables, job: Job, path: string, k: nat)
    requires Inv(env, t) && IsWalk(env, env.treeOf(job.sha), job.walk) && VisitedAt(env, t, job, path, k)
    ensures LeftBy(env, job, Visited(env, t, job, k + 1).t, path)
  {
    PrepareStep(env, job.mode, env.treeOf(job.sha), t, job.calls, job.life);
    PathAfterWalk(env, job.mode, job.sha, t.nextId, job.walk, k + 1, Prepared(env, t, job), path);
    assert path in job.walk[..k + 1];
  }

  lemma DeleteLeaves(env: Env, t: Tables, job: Job, path: string)
    requires Inv(env, t) && IsWalk(env, env.treeOf(job.sha), job.walk)
    requires path in Gone(job.mode, env.treeOf(job.sha)) && Prepared(env, t, job).alive
    ensures LeftBy(env, job, Visited(env, t, job, |job.walk|).t, path)
  {
    PrepareStep(env, job.mode, env.treeOf(job.sha), t, job.calls, job.life);
    UntouchedByWalk(env, job.mode, job.sha, t.nextId, job.walk, |job.walk|, Prepared(env, t, job), path);
  }

  lemma ActedJobLeaves(env: Env, t: Tables, job: Job, path: string)
    requires Inv(env, t) && IsWalk(env, env.treeOf(job.sha), job.walk)
    requires !RunJob(env, t, job).alive && ActedOn(env, t, job, path)
    ensures LeftBy(env, job, RunJob(env, t, job).t, path)
  {
    if k: nat :| VisitedAt(env, t, job, path, k) {
      VisitLeaves(env, t, job, path, k);
      LaterVisitsKeep(env, t, job, path, k, |job.walk|);
    } else {
      DeleteLeaves(env, t, job, path);
    }
    DeadRunTables(env, job.oracle, job.calls, job.mode, t, job.sha, job.walk, job.life);
  }

  // ----- the next attempt -----

  /** A full index of the tree has chunks at the path. */
  predicate HasChunks(env: Env, tree: Tree, path: string) {
    Eligible(env, tree, path) && env.chunkFile(tree[path].content, env.languageOf(path).value) != []
  }

  /** What the job leaves where it has acted is right for this tree. */
  predicate Harmless(env: Env, job: Job, tree: Tree, path: string) {
    match ActionFor(env, job.mode, env.treeOf(job.sha), path)
    case Index(language, size, content) =>
      Eligible(env, tree, path) && !HasChunks(env, tree, path)
      && env.hash(content) == env.hash(tree[path].content) && size == tree[path].size
    case _ => !Eligible(env, tree, path)
  }

  /**
   Why retries need the same head, exactly: take a path on which the finishing attempt does
   not act, because its head agrees there with the index before the first attempt. The
   finished index is right at the path if and only if the first attempt died before it
   came to the path, or what it did there is harmless under the new head.
   */
  lemma MovedHeadIff(env: Env, t: Tables, first: Job, last: Job, path: string)
    requires Inv(env, t) && IsWalk(env, env.treeOf(first.sha), first.walk) && IsWalk(env, env.treeOf(last.sha), last.walk)
    requires first.mode.Incremental? && last.mode.Incremental?
    requires !RunJob(env, t, first).alive && RunJob(env, RunJob(env, t, first).t, last).alive
    requires !Reaches(env, last, path) && ExactAt(env, env.treeOf(last.sha), t, path)
    ensures ExactAt(env, env.treeOf(last.sha), RunJob(env, RunJob(env, t, first).t, last).t, path)
            <==> (ActedOn(env, t, first, path) ==> Harmless(env, first, env.treeOf(last.sha), path))
  {
    var between := RunJob(env, t, first).t;
    EveryRunKeepsInv(env, first.oracle, first.calls, first.mode, t, first.sha, first.walk, first.life);
    IncrementalExactAt(env, last.oracle, last.calls, last.mode.changed, between, last.sha, last.walk, last.life, path);
    if ActedOn(env, t, first, path) {
      ActedJobLeaves(env, t, first, path);
    } else {
      UnactedJobKeeps(env, t, first, path);
    }
  }

  /**
   In particular a file with chunks is right if and only if the first attempt had not acted
   on it: its row or its chunks are missing otherwise.
   */
  lemma FileWithChunksIff(env: Env, t: Tables, first: Job, last: Job, path: string)
    requires Inv(env, t) && IsWalk(env, env.treeOf(first.sha), first.walk) && IsWalk(env, env.treeOf(last.sha), last.walk)
    requires first.mode.Incremental? && last.mode.Incremental?
    requires !RunJob(env, t, first).alive && RunJob(env, RunJob(env, t, first).t, last).alive
    requires !Reaches(env, last, path) && HasChunks(env, env.treeOf(last.sha), path) && ExactAt(env, env.treeOf(last.sha), t, path)
    ensures ExactAt(env, env.treeOf(last.sha), RunJob(env, RunJob(env, t, first).t, last).t, path)
            <==> !ActedOn(env, t, first, path)
  {
    MovedHeadIff(env, t, first, last, path);
  }

  /** The job has inserted or updated the row of the path. */
  ghost predicate Upserted(env: Env, t: Tables, job: Job, path: string) {
    ActionFor(env, job.mode, env.treeOf(job.sha), path).Index? && exists k: nat :: VisitedAt(env, t, job, path, k)
  }

  /**
   And a path that a full index would not hold is right if and only if the first attempt had
   not upserted it: its row stays behind otherwise.
   */
  lemma StrayRowIff(env: Env, t: Tables, first: Job, last: Job, path: string)
    requires Inv(env, t) && IsWalk(env, env.treeOf(first.sha), first.walk) && IsWalk(env, env.treeOf(last.sha), last.walk)
    requires first.mode.Incremental? && last.mode.Incremental?
    requires !RunJob(env, t, first).alive && RunJob(env, RunJob(env, t, first).t, last).alive
    requires !Reaches(env, last, path) && !Eligible(env, env.treeOf(last.sha), path) && path !in t.files
    ensures path in RunJob(env, RunJob(env, t, first).t, last).t.files <==> Upserted(env, t, first, path)
  {
    MovedHeadIff(env, t, first, last, path);
  }
}
