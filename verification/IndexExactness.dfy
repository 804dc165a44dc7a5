/** When an indexing run leaves the exact index of its commit. */
module IndexExactness {
  import opened Wrappers
  import opened SourceChunks
  import opened IndexTables
  import opened IndexRuns
  import opened IndexSteps
  import opened IndexTheorems
  import Embedding

  /** What a finished run leaves at a path, in terms of the state after its walk. */
  ghost predicate StoredFrom(mode: Mode, sha: string, w: Run, u: Tables, path: string) {
    (path in u.files <==> path in w.t.files && (mode.Full? ==> w.t.files[path].sha == sha))
    && (path in u.files ==> StoredAt(w, u, path))
  }

  lemma FinishedAt(env: Env, oracle: Embedding.Oracle, calls: nat, mode: Mode, t: Tables, sha: string, walk: seq<string>,
                   life: nat, path: string)
    requires Inv(env, t) && IsWalk(env, env.treeOf(sha), walk)
    requires IndexRun(env, oracle, calls, mode, t, sha, walk, life).alive
    ensures Walked(env, mode, t, calls, sha, walk, life).alive
    ensures StoredFrom(mode, sha, Walked(env, mode, t, calls, sha, walk, life),
                       IndexRun(env, oracle, calls, mode, t, sha, walk, life).t, path)
  {
    var w := Walked(env, mode, t, calls, sha, walk, life);
    WalkedStep(env, mode, t, calls, sha, walk, life);
    ReadyStep(env, oracle, t.nextId, walk, w);
    var ready := Ready(env, oracle, w);
    StoreStep(env, mode, t.nextId, walk, ready, sha);
    var u := StoreResults(mode, ready.t, ready.rows, ready.specs, sha);
    if path in u.files { assert StoredAt(ready, u, path); }
  }

  /** A finished full run leaves the exact index, whatever valid tables it started from. */
  lemma FullRunExactAt(env: Env, oracle: Embedding.Oracle, calls: nat, t: Tables, sha: string, walk: seq<string>,
                       life: nat, path: string)
    requires Inv(env, t) && IsWalk(env, env.treeOf(sha), walk)
    requires IndexRun(env, oracle, calls, Full, t, sha, walk, life).alive
    ensures ExactAt(env, env.treeOf(sha), IndexRun(env, oracle, calls, Full, t, sha, walk, life).t, path)
  {
    var u := IndexRun(env, oracle, calls, Full, t, sha, walk, life).t;
    FinishedAt(env, oracle, calls, Full, t, sha, walk, life, path);
    AliveWalk(env, Full, t, calls, sha, walk, life, path);
    PrepareStep(env, Full, env.treeOf(sha), t, calls, life);
    var p, w := Prepare(Full, env.treeOf(sha), t, calls, life), Walked(env, Full, t, calls, sha, walk, life);
    FullPathIsExact(env, sha, walk, p.t, w, u, path);
  }

  lemma FullPathIsExact(env: Env, sha: string, walk: seq<string>, before: Tables, w: Run, u: Tables, path: string)
    requires Stamped(env, before) && IsWalk(env, env.treeOf(sha), walk)
    requires PathState(env, Full, sha, path in walk, before, w, path) && StoredFrom(Full, sha, w, u, path)
    ensures ExactAt(env, env.treeOf(sha), u, path)
  {}

  /**
   A finished incremental run is exact at a path if and only if it acts on the path, or the
   index already agreed with the new tree there.
   */
  lemma IncrementalExactAt(env: Env, oracle: Embedding.Oracle, calls: nat, changed: set<string>, t: Tables, sha: string,
                           walk: seq<string>, life: nat, path: string)
    requires Inv(env, t) && IsWalk(env, env.treeOf(sha), walk)
    requires IndexRun(env, oracle, calls, Incremental(changed), t, sha, walk, life).alive
    ensures ExactAt(env, env.treeOf(sha), IndexRun(env, oracle, calls, Incremental(changed), t, sha, walk, life).t, path)
            <==> Reached(env, changed, env.treeOf(sha), path) || ExactAt(env, env.treeOf(sha), t, path)
  {
    var tree, mode := env.treeOf(sha), Incremental(changed);
    var u := IndexRun(env, oracle, calls, mode, t, sha, walk, life).t;
    FinishedAt(env, oracle, calls, mode, t, sha, walk, life, path);
    AliveWalk(env, mode, t, calls, sha, walk, life, path);
    PrepareStep(env, mode, tree, t, calls, life);
    var p, w := Prepare(mode, tree, t, calls, life), Walked(env, mode, t, calls, sha, walk, life);
    IncrementalPath(env, changed, sha, walk, t, p.t, w, u, path);
  }

  lemma IncrementalPath(env: Env, changed: set<string>, sha: string, walk: seq<string>, t: Tables, p: Tables, w: Run,
                        u: Tables, path: string)
    requires IsWalk(env, env.treeOf(sha), walk)
    requires if path in Gone(Incremental(changed), env.treeOf(sha)) then path !in p.files else SameAt(t, p, path)
    requires PathState(env, Incremental(changed), sha, path in walk, p, w, path)
    requires StoredFrom(Incremental(changed), sha, w, u, path)
    ensures ExactAt(env, env.treeOf(sha), u, path)
            <==> Reached(env, changed, env.treeOf(sha), path) || ExactAt(env, env.treeOf(sha), t, path)
    ensures !Reached(env, changed, env.treeOf(sha), path) ==> SameAt(t, u, path)
  {}

  /** A path on which an incremental run does not act keeps its row and chunks, dead or alive. */
  lemma IncrementalKeepsTheRest(env: Env, oracle: Embedding.Oracle, calls: nat, changed: set<string>, t: Tables,
                                sha: string, walk: seq<string>, life: nat, path: string)
    requires Inv(env, t) && IsWalk(env, env.treeOf(sha), walk)
    requires !Reached(env, changed, env.treeOf(sha), path)
    ensures SameAt(t, IndexRun(env, oracle, calls, Incremental(changed), t, sha, walk, life).t, path)
  {
    var tree, mode := env.treeOf(sha), Incremental(changed);
    var last := IndexRun(env, oracle, calls, mode, t, sha, walk, life);
    if last.alive {
      FinishedAt(env, oracle, calls, mode, t, sha, walk, life, path);
      AliveWalk(env, mode, t, calls, sha, walk, life, path);
      PrepareStep(env, mode, tree, t, calls, life);
      IncrementalPath(env, changed, sha, walk, t, Prepare(mode, tree, t, calls, life).t,
                      Walked(env, mode, t, calls, sha, walk, life), last.t, path);
    } else {
      DeadRunKeepsTheRest(env, oracle, calls, changed, t, sha, walk, life, path);
    }
  }

  lemma DeadRunKeepsTheRest(env: Env, oracle: Embedding.Oracle, calls: nat, changed: set<string>, t: Tables,
                            sha: string, walk: seq<string>, life: nat, path: string)
    requires Inv(env, t) && IsWalk(env, env.treeOf(sha), walk)
    requires !Reached(env, changed, env.treeOf(sha), path)
    requires !IndexRun(env, oracle, calls, Incremental(changed), t, sha, walk, life).alive
    ensures SameAt(t, IndexRun(env, oracle, calls, Incremental(changed), t, sha, walk, life).t, path)
  {
    var tree, mode := env.treeOf(sha), Incremental(changed);
    var p := Prepare(mode, tree, t, calls, life);
    PrepareStep(env, mode, tree, t, calls, life);
    assert SameAt(t, p.t, path);
    UntouchedByWalk(env, mode, sha, t.nextId, walk, |walk|, p, path);
    DeadRunTables(env, oracle, calls, mode, t, sha, walk, life);
  }

  lemma DeadRunTables(env: Env, oracle: Embedding.Oracle, calls: nat, mode: Mode, t: Tables, sha: string,
                      walk: seq<string>, life: nat)
    requires Inv(env, t) && IsWalk(env, env.treeOf(sha), walk)
    requires !IndexRun(env, oracle, calls, mode, t, sha, walk, life).alive
    ensures var last, w := IndexRun(env, oracle, calls, mode, t, sha, walk, life),
                           Walked(env, mode, t, calls, sha, walk, life);
            last.t.files == w.t.files && last.t.chunks == w.t.chunks
  {
    WalkedStep(env, mode, t, calls, sha, walk, life);
    ReadyStep(env, oracle, t.nextId, walk, Walked(env, mode, t, calls, sha, walk, life));
  }

  // ----- the two runs compared -----

  function RegularAt(tree: Tree, path: string): Option<Entry> {
    if path in tree && tree[path].Regular? then Some(tree[path]) else None
  }

  /**
   The diff names every path whose regular file differs, as git's diff without rename
   detection does; it may name others, such as links, submodules and files whose mode changed.
   */
  ghost predicate CoversDiff(before: Tree, after: Tree, changed: set<string>) {
    forall p :: RegularAt(before, p) != RegularAt(after, p) ==> p in changed
  }

  /**
   The path is still found on disk and is no regular file: it is a link that resolves, a
   directory, or lies below a linked directory.
   */
  predicate Lingers(tree: Tree, path: string) {
    path in tree && match tree[path]
                    case Regular(_, _) => false
                    case Link(resolves) => resolves
                    case Directory => true
                    case ThroughLink => true
  }

  lemma SameFileSameIndex(env: Env, before: Tree, after: Tree, t: Tables, path: string)
    requires RegularAt(before, path) == RegularAt(after, path)
    ensures ExactAt(env, before, t, path) <==> ExactAt(env, after, t, path)
  {
    assert path in before && before[path].Regular? <==> RegularAt(before, path).Some?;
    assert path in after && after[path].Regular? <==> RegularAt(after, path).Some?;
  }

  /**
   Starting from the exact index of the old commit, with a diff that names every differing
   file, an incremental run ends with the exact index of the new commit if and only if no
   indexed path is still found on disk without being a regular file.
   */
  lemma IncrementalRefinesFull(env: Env, oracle: Embedding.Oracle, calls: nat, changed: set<string>, t: Tables,
                               base: string, sha: string, walk: seq<string>, life: nat)
    requires Inv(env, t) && IsWalk(env, env.treeOf(sha), walk)
    requires Exact(env, env.treeOf(base), t) && CoversDiff(env.treeOf(base), env.treeOf(sha), changed)
    requires IndexRun(env, oracle, calls, Incremental(changed), t, sha, walk, life).alive
    ensures Exact(env, env.treeOf(sha), IndexRun(env, oracle, calls, Incremental(changed), t, sha, walk, life).t)
            <==> forall p :: p in t.files ==> !Lingers(env.treeOf(sha), p)
  {
    var after := env.treeOf(sha);
    var u := IndexRun(env, oracle, calls, Incremental(changed), t, sha, walk, life).t;
    forall p ensures ExactAt(env, after, u, p) <==> !(p in t.files && Lingers(after, p)) {
      ExactUnlessLingering(env, oracle, calls, changed, t, base, sha, walk, life, p);
    }
  }

  lemma ExactUnlessLingering(env: Env, oracle: Embedding.Oracle, calls: nat, changed: set<string>, t: Tables,
                             base: string, sha: string, walk: seq<string>, life: nat, path: string)
    requires Inv(env, t) && IsWalk(env, env.treeOf(sha), walk)
    requires Exact(env, env.treeOf(base), t) && CoversDiff(env.treeOf(base), env.treeOf(sha), changed)
    requires IndexRun(env, oracle, calls, Incremental(changed), t, sha, walk, life).alive
    ensures ExactAt(env, env.treeOf(sha), IndexRun(env, oracle, calls, Incremental(changed), t, sha, walk, life).t, path)
            <==> !(path in t.files && Lingers(env.treeOf(sha), path))
  {
    IncrementalExactAt(env, oracle, calls, changed, t, sha, walk, life, path);
    assert ExactAt(env, env.treeOf(base), t, path);
    if RegularAt(env.treeOf(base), path) == RegularAt(env.treeOf(sha), path) {
      SameFileSameIndex(env, env.treeOf(base), env.treeOf(sha), t, path);
    }
  }

  /**
   A commit that moves a directory and leaves a link to it under the old name: the files
   below the old name are deleted, the diff says so, and their rows and chunks stay.
   */
  lemma LinkedDirectoryKeepsOldRows(env: Env, oracle: Embedding.Oracle, calls: nat, changed: set<string>, t: Tables,
                                    base: string, sha: string, walk: seq<string>, life: nat, path: string)
    requires Inv(env, t) && IsWalk(env, env.treeOf(sha), walk)
    requires Exact(env, env.treeOf(base), t) && CoversDiff(env.treeOf(base), env.treeOf(sha), changed)
    requires IndexRun(env, oracle, calls, Incremental(changed), t, sha, walk, life).alive
    requires Eligible(env, env.treeOf(base), path) && path in env.treeOf(sha) && env.treeOf(sha)[path].ThroughLink?
    ensures path in changed
    ensures SameAt(t, IndexRun(env, oracle, calls, Incremental(changed), t, sha, walk, life).t, path) && path in t.files
    ensures !Exact(env, env.treeOf(sha), IndexRun(env, oracle, calls, Incremental(changed), t, sha, walk, life).t)
  {
    assert ExactAt(env, env.treeOf(base), t, path);
    assert RegularAt(env.treeOf(base), path) != RegularAt(env.treeOf(sha), path);
    IncrementalKeepsTheRest(env, oracle, calls, changed, t, sha, walk, life, path);
    ExactUnlessLingering(env, oracle, calls, changed, t, base, sha, walk, life, path);
  }

  /** The smallest such commit: a/b.py becomes c/b.py, and a becomes a link to c. */
  function BeforeMove(file: Entry): Tree {
    map["a" := Directory, "a/b.py" := file]
  }

  function AfterMove(file: Entry): Tree {
    map["a" := Link(true), "a/b.py" := ThroughLink, "c" := Directory, "c/b.py" := file]
  }

  const MOVED := {"a", "a/b.py", "c/b.py"}

  lemma MoveIsCovered(file: Entry)
    requires file.Regular?
    ensures CoversDiff(BeforeMove(file), AfterMove(file), MOVED)
    ensures "a/b.py" in AfterMove(file) && AfterMove(file)["a/b.py"].ThroughLink?
  {
    assert "a/b.py"[0] != "c/b.py"[0] && "a/b.py"[0] != "c"[0] && |"a"| != |"a/b.py"|;
  }

  lemma MovedDirectoryIsNotExact(env: Env, oracle: Embedding.Oracle, calls: nat, t: Tables, base: string, sha: string,
                                 walk: seq<string>, life: nat, file: Entry)
    requires Inv(env, t) && IsWalk(env, env.treeOf(sha), walk) && Exact(env, env.treeOf(base), t) && file.Regular?
    requires env.treeOf(base) == BeforeMove(file) && env.treeOf(sha) == AfterMove(file)
    requires Eligible(env, env.treeOf(base), "a/b.py")
    requires IndexRun(env, oracle, calls, Incremental(MOVED), t, sha, walk, life).alive
    ensures !Exact(env, env.treeOf(sha), IndexRun(env, oracle, calls, Incremental(MOVED), t, sha, walk, life).t)
  {
    MoveIsCovered(file);
    LinkedDirectoryKeepsOldRows(env, oracle, calls, MOVED, t, base, sha, walk, life, "a/b.py");
  }

  /** Under that condition the two runs agree: the same paths, rows' hashes and chunks. */
  lemma IncrementalAgreesWithFull(env: Env, oracle: Embedding.Oracle, calls: nat, changed: set<string>, t: Tables,
                                  base: string, sha: string, walk: seq<string>, life: nat,
                                  other: Tables, oracle': Embedding.Oracle, walk': seq<string>, life': nat, path: string)
    requires Inv(env, t) && IsWalk(env, env.treeOf(sha), walk)
    requires Exact(env, env.treeOf(base), t) && CoversDiff(env.treeOf(base), env.treeOf(sha), changed)
    requires forall p :: p in t.files ==> !Lingers(env.treeOf(sha), p)
    requires IndexRun(env, oracle, calls, Incremental(changed), t, sha, walk, life).alive
    requires Inv(env, other) && IsWalk(env, env.treeOf(sha), walk')
    requires IndexRun(env, oracle', calls, Full, other, sha, walk', life').alive
    ensures var inc := IndexRun(env, oracle, calls, Incremental(changed), t, sha, walk, life).t;
            var full := IndexRun(env, oracle', calls, Full, other, sha, walk', life').t;
            (path in inc.files <==> path in full.files) &&
            (path in inc.files ==>
              inc.files[path].contentHash == full.files[path].contentHash &&
              inc.files[path].size == full.files[path].size && inc.files[path].language == full.files[path].language &&
              ChunksOf(inc.chunks, inc.files[path].id) == ChunksOf(full.chunks, full.files[path].id))
  {
    IncrementalRefinesFull(env, oracle, calls, changed, t, base, sha, walk, life);
    var inc := IndexRun(env, oracle, calls, Incremental(changed), t, sha, walk, life).t;
    assert ExactAt(env, env.treeOf(sha), inc, path);
    FullRunExactAt(env, oracle', calls, other, sha, walk', life', path);
    EveryRunKeepsInv(env, oracle, calls, Incremental(changed), t, sha, walk, life);
    EveryRunKeepsInv(env, oracle', calls, Full, other, sha, walk', life');
  }

  /**
   When git cannot compute the diff the run walks every file but deletes none: the result
   is exact if and only if every indexed path is still a regular file of the new tree.
   */
  lemma FallbackIsExactIff(env: Env, oracle: Embedding.Oracle, calls: nat, t: Tables, sha: string, walk: seq<string>,
                           life: nat)
    requires Inv(env, t) && IsWalk(env, env.treeOf(sha), walk)
    requires IndexRun(env, oracle, calls, Incremental({}), t, sha, walk, life).alive
    ensures Exact(env, env.treeOf(sha), IndexRun(env, oracle, calls, Incremental({}), t, sha, walk, life).t)
            <==> forall p :: p in t.files ==> p in env.treeOf(sha) && env.treeOf(sha)[p].Regular?
  {
    var tree := env.treeOf(sha);
    var u := IndexRun(env, oracle, calls, Incremental({}), t, sha, walk, life).t;
    forall p
      ensures ExactAt(env, tree, u, p) <==> (p in t.files ==> p in tree && tree[p].Regular?)
    {
      IncrementalExactAt(env, oracle, calls, {}, t, sha, walk, life, p);
      if p in t.files { assert Eligible(env, env.treeOf(t.files[p].sha), p); }
    }
  }

  // ----- histories -----

  datatype Job = Job(mode: Mode, sha: string, walk: seq<string>, oracle: Embedding.Oracle, calls: nat, life: nat)

  function RunJob(env: Env, t: Tables, job: Job): Run {
    IndexRun(env, job.oracle, job.calls, job.mode, t, job.sha, job.walk, job.life)
  }

  function After(env: Env, t: Tables, jobs: seq<Job>): Tables {
    if jobs == [] then t else RunJob(env, After(env, t, jobs[..|jobs| - 1]), jobs[|jobs| - 1]).t
  }

  ghost predicate Walks(env: Env, jobs: seq<Job>) {
    forall k :: 0 <= k < |jobs| ==> IsWalk(env, env.treeOf(jobs[k].sha), jobs[k].walk)
  }

  lemma {:induction false} HistoryKeepsInv(env: Env, t: Tables, jobs: seq<Job>)
    requires Inv(env, t) && Walks(env, jobs)
    ensures Inv(env, After(env, t, jobs))
  {
    if jobs == [] {
    } else {
      var last := jobs[|jobs| - 1];
      HistoryKeepsInv(env, t, jobs[..|jobs| - 1]);
      EveryRunKeepsInv(env, last.oracle, last.calls, last.mode, After(env, t, jobs[..|jobs| - 1]), last.sha, last.walk, last.life);
    }
  }

  /**
   Full indexing is self-healing: after any history of full and incremental runs, each cut
   off anywhere, with any diff, a full run that finishes leaves the exact index.
   */
  lemma FullIndexingHeals(env: Env, t: Tables, jobs: seq<Job>, last: Job)
    requires Inv(env, t) && Walks(env, jobs) && IsWalk(env, env.treeOf(last.sha), last.walk)
    requires last.mode.Full? && RunJob(env, After(env, t, jobs), last).alive
    ensures Exact(env, env.treeOf(last.sha), RunJob(env, After(env, t, jobs), last).t)
  {
    HistoryKeepsInv(env, t, jobs);
    forall p ensures ExactAt(env, env.treeOf(last.sha), RunJob(env, After(env, t, jobs), last).t, p) {
      FullRunExactAt(env, last.oracle, last.calls, After(env, t, jobs), last.sha, last.walk, last.life, p);
    }
  }

  /** A newly connected repository is a valid start, so both hold from there on, whatever the other repositories have embedded. */
  lemma IndexingFromTheStart(env: Env, store: Embedding.Store, jobs: seq<Job>, last: Job)
    requires Walks(env, jobs) && IsWalk(env, env.treeOf(last.sha), last.walk)
    ensures Inv(env, After(env, NewRepository(store), jobs))
    ensures last.mode.Full? && RunJob(env, After(env, NewRepository(store), jobs), last).alive ==>
              Exact(env, env.treeOf(last.sha), RunJob(env, After(env, NewRepository(store), jobs), last).t)
  {
    HistoryKeepsInv(env, NewRepository(store), jobs);
    if last.mode.Full? && RunJob(env, After(env, NewRepository(store), jobs), last).alive {
      FullIndexingHeals(env, NewRepository(store), jobs, last);
    }
  }

  /** An incremental job acts on the path: its diff names it, and its head lets the run see it. */
  predicate Reaches(env: Env, job: Job, path: string) {
    job.mode.Incremental? && Reached(env, job.mode.changed, env.treeOf(job.sha), path)
  }

  ghost predicate Attempts(jobs: seq<Job>) {
    forall k :: 0 <= k < |jobs| ==> jobs[k].mode.Incremental?
  }

  lemma {:induction false} AttemptsKeepTheRest(env: Env, t: Tables, jobs: seq<Job>, path: string)
    requires Inv(env, t) && Walks(env, jobs) && Attempts(jobs)
    requires forall k :: 0 <= k < |jobs| ==> !Reaches(env, jobs[k], path)
    ensures SameAt(t, After(env, t, jobs), path)
  {
    if jobs == [] {
    } else {
      var last := jobs[|jobs| - 1];
      AttemptsKeepTheRest(env, t, jobs[..|jobs| - 1], path);
      HistoryKeepsInv(env, t, jobs[..|jobs| - 1]);
      assert !Reaches(env, jobs[|jobs| - 1], path);
      IncrementalKeepsTheRest(env, last.oracle, last.calls, last.mode.changed, After(env, t, jobs[..|jobs| - 1]), last.sha,
                              last.walk, last.life, path);
    }
  }

  /**
   Crashed attempts change nothing in the outcome, at every path on which they act only if
   the last attempt acts on it too - at every path when all attempts see the same head: the
   attempt that finishes decides as if it were the first.
   */
  lemma RetriesConverge(env: Env, t: Tables, jobs: seq<Job>, last: Job, path: string)
    requires Inv(env, t) && Walks(env, jobs) && Attempts(jobs)
    requires last.mode.Incremental? && IsWalk(env, env.treeOf(last.sha), last.walk)
    requires forall k :: 0 <= k < |jobs| && Reaches(env, jobs[k], path) ==> Reaches(env, last, path)
    requires RunJob(env, After(env, t, jobs), last).alive
    ensures ExactAt(env, env.treeOf(last.sha), RunJob(env, After(env, t, jobs), last).t, path)
            <==> Reaches(env, last, path) || ExactAt(env, env.treeOf(last.sha), t, path)
  {
    HistoryKeepsInv(env, t, jobs);
    IncrementalExactAt(env, last.oracle, last.calls, last.mode.changed, After(env, t, jobs), last.sha, last.walk, last.life, path);
    if !Reaches(env, last, path) {
      AttemptsKeepTheRest(env, t, jobs, path);
    }
  }

  /**
   When the head moves between attempts this can fail: a file that the first attempt deleted
   before it died, and that the head of the second has again as in the base, is not in the
   second diff and stays missing.
   */
  lemma MovedHeadLosesFile(env: Env, t: Tables, first: Job, last: Job, path: string)
    requires Inv(env, t) && IsWalk(env, env.treeOf(first.sha), first.walk) && IsWalk(env, env.treeOf(last.sha), last.walk)
    requires first.mode.Incremental? && last.mode.Incremental?
    requires path in Gone(first.mode, env.treeOf(first.sha))
    requires Prepare(first.mode, env.treeOf(first.sha), t, first.calls, first.life).alive && !RunJob(env, t, first).alive
    requires RunJob(env, RunJob(env, t, first).t, last).alive
    requires !Reaches(env, last, path) && Eligible(env, env.treeOf(last.sha), path)
    ensures !ExactAt(env, env.treeOf(last.sha), RunJob(env, RunJob(env, t, first).t, last).t, path)
  {
    var tree, p := env.treeOf(first.sha), Prepare(first.mode, env.treeOf(first.sha), t, first.calls, first.life);
    PrepareStep(env, first.mode, tree, t, first.calls, first.life);
    UntouchedByWalk(env, first.mode, first.sha, t.nextId, first.walk, |first.walk|, p, path);
    DeadRunTables(env, first.oracle, first.calls, first.mode, t, first.sha, first.walk, first.life);
    var between := RunJob(env, t, first).t;
    assert path !in between.files;
    EveryRunKeepsInv(env, first.oracle, first.calls, first.mode, t, first.sha, first.walk, first.life);
    IncrementalExactAt(env, last.oracle, last.calls, last.mode.changed, between, last.sha, last.walk, last.life, path);
  }

  /** A dead run has not moved the base commit, so the retry compares with the same base. */
  lemma DeadRunKeepsBase(env: Env, oracle: Embedding.Oracle, calls: nat, mode: Mode, t: Tables, sha: string,
                         walk: seq<string>, life: nat)
    requires Inv(env, t) && IsWalk(env, env.treeOf(sha), walk)
    ensures var r := IndexRun(env, oracle, calls, mode, t, sha, walk, life);
            r.t.repo.currentSha == if r.alive then Some(sha) else t.repo.currentSha
  {
    var w := Walked(env, mode, t, calls, sha, walk, life);
    PrepareStep(env, mode, env.treeOf(sha), t, calls, life);
    WalkKeepsBase(env, mode, sha, walk, |walk|, Prepare(mode, env.treeOf(sha), t, calls, life));
    WalkedStep(env, mode, t, calls, sha, walk, life);
    ReadyStep(env, oracle, t.nextId, walk, w);
  }

  lemma {:induction false} WalkKeepsBase(env: Env, mode: Mode, sha: string, walk: seq<string>, n: nat, r: Run)
    requires n <= |walk|
    ensures VisitAll(env, mode, sha, walk, n, r).t.repo == r.t.repo
  {
    if n == 0 {
    } else {
      WalkKeepsBase(env, mode, sha, walk, n - 1, r);
    }
  }
}
