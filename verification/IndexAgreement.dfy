/**
 When the edges of an incremental run agree with those of a full run, relationship by
 relationship. `t` is an index, `inc` an incremental job on it, `full` a full job on any
 tables, and `base` the full job that left `t`.
 */
module IndexAgreement {
  import opened Wrappers
  import opened SourceChunks
  import opened IndexTables
  import opened IndexRuns
  import opened IndexTheorems
  import opened IndexExactness
  import opened IndexCalls
  import opened IndexTargets

  /** A job of this commit that ends on valid tables. */
  ghost predicate Finishes(env: Env, t: Tables, job: Job) {
    Inv(env, t) && IsWalk(env, HeadOf(env, job), job.walk) && RunJob(env, t, job).alive
  }

  /** The two indexes have the same edges for the relationship, by the files into which they go. */
  ghost predicate SameEdges(u: Tables, v: Tables, path: string, rel: Relationship) {
    forall q :: GoesInto(u, path, rel, q) <==> GoesInto(v, path, rel, q)
  }

  /** All edges of the relationship go into x; and there is one if and only if it is stored. */
  ghost predicate GoesOnlyInto(u: Tables, path: string, rel: Relationship, x: Option<string>, stored: bool) {
    forall q :: GoesInto(u, path, rel, q) <==> q == x && stored
  }

  lemma SameWhenOnly(u: Tables, v: Tables, path: string, rel: Relationship, x: Option<string>, stored: bool, y: Option<string>)
    requires GoesOnlyInto(u, path, rel, x, stored) && GoesOnlyInto(v, path, rel, y, true)
    ensures SameEdges(u, v, path, rel) <==> x == y && stored
  {
    assert GoesInto(v, path, rel, y);
  }

  lemma FullGoesOnly(env: Env, t: Tables, job: Job, path: string, rel: Relationship)
    requires Finishes(env, t, job) && job.mode.Full? && Called(env, HeadOf(env, job), path, rel)
    ensures GoesOnlyInto(RunJob(env, t, job).t, path, rel, ResolvedBy(env, job, path, rel.target), true)
  {
    forall q ensures GoesInto(RunJob(env, t, job).t, path, rel, q) <==> q == ResolvedBy(env, job, path, rel.target) {
      FullEdgeGoes(env, t, job, path, rel, q);
    }
  }

  lemma ChangedGoesOnly(env: Env, t: Tables, job: Job, path: string, rel: Relationship)
    requires Finishes(env, t, job) && Reaches(env, job, path) && Called(env, HeadOf(env, job), path, rel)
    ensures GoesOnlyInto(RunJob(env, t, job).t, path, rel, ResolvedBy(env, job, path, rel.target), true)
  {
    forall q ensures GoesInto(RunJob(env, t, job).t, path, rel, q) <==> q == ResolvedBy(env, job, path, rel.target) {
      ChangedEdgeGoes(env, t, job, path, rel, q);
    }
  }

  lemma UntouchedGoesOnly(env: Env, t: Tables, job: Job, path: string, rel: Relationship, x: Option<string>)
    requires Finishes(env, t, job) && job.mode.Incremental? && !Reaches(env, job, path)
    requires GoesOnlyInto(t, path, rel, x, true)
    ensures GoesOnlyInto(RunJob(env, t, job).t, path, rel, x, x.Some? ==> !Reaches(env, job, x.value))
  {
    forall q
      ensures GoesInto(RunJob(env, t, job).t, path, rel, q) <==> q == x && (x.Some? ==> !Reaches(env, job, x.value))
    {
      UntouchedEdgeGoes(env, t, job, path, rel, q);
    }
  }

  // ----- the rule for different sets of indexed files -----

  lemma {:induction false} SmallerRunAgreesIff(env: Env, job: Job, tree: Tree, walk: seq<string>, n: nat, name: string)
    requires n <= |walk| && job.mode.Incremental? && HeadOf(env, job) == tree
    ensures LastDefiner(env, job.mode, tree, walk, n, name) == LastDefiner(env, Full, tree, walk, n, name)
            <==> var x := LastDefiner(env, Full, tree, walk, n, name); x.Some? ==> Reaches(env, job, x.value)
  {
    if n == 0 {
    } else {
      SmallerRunAgreesIff(env, job, tree, walk, n - 1, name);
      LastDefinerMeaning(env, job.mode, tree, walk, n, name);
    }
  }

  /**
   With the same walk the two runs resolve a name alike if and only if the file that the
   full run finds is none, the caller's own, or one on which the incremental run acts.
   */
  lemma ResolutionsAgreeIff(env: Env, inc: Job, full: Job, path: string, name: string)
    requires inc.mode.Incremental? && full.mode.Full? && inc.sha == full.sha && inc.walk == full.walk
    requires Reaches(env, inc, path)
    ensures ResolvedBy(env, inc, path, name) == ResolvedBy(env, full, path, name)
            <==> var x := ResolvedBy(env, full, path, name); x.Some? ==> Reaches(env, inc, x.value)
  {
    SmallerRunAgreesIff(env, inc, HeadOf(env, inc), inc.walk, |inc.walk|, name);
  }

  // ----- a call of a changed file -----

  lemma ChangedCallAgreesIff(env: Env, t: Tables, inc: Job, other: Tables, full: Job, path: string, rel: Relationship)
    requires Finishes(env, t, inc) && Finishes(env, other, full) && full.mode.Full? && inc.sha == full.sha
    requires Reaches(env, inc, path) && Called(env, HeadOf(env, inc), path, rel)
    ensures SameEdges(RunJob(env, t, inc).t, RunJob(env, other, full).t, path, rel)
            <==> ResolvedBy(env, inc, path, rel.target) == ResolvedBy(env, full, path, rel.target)
  {
    ChangedGoesOnly(env, t, inc, path, rel);
    FullGoesOnly(env, other, full, path, rel);
    SameWhenOnly(RunJob(env, t, inc).t, RunJob(env, other, full).t, path, rel, ResolvedBy(env, inc, path, rel.target), true,
                 ResolvedBy(env, full, path, rel.target));
  }

  // ----- a call of an untouched file -----

  /** The name is resolved into the same file by the old and the new commit, and the run does not act on that file. */
  predicate StaysPut(env: Env, base: Job, inc: Job, full: Job, path: string, name: string) {
    var x := ResolvedBy(env, base, path, name);
    x == ResolvedBy(env, full, path, name) && (x.Some? ==> !Reaches(env, inc, x.value))
  }

  lemma UntouchedCallAgreesIff(env: Env, before: Tables, base: Job, inc: Job, other: Tables, full: Job, path: string,
                               rel: Relationship)
    requires Finishes(env, before, base) && base.mode.Full? && inc.mode.Incremental?
    requires Finishes(env, RunJob(env, before, base).t, inc) && Finishes(env, other, full) && full.mode.Full? && inc.sha == full.sha
    requires !Reaches(env, inc, path) && Called(env, HeadOf(env, base), path, rel) && Called(env, HeadOf(env, inc), path, rel)
    ensures SameEdges(RunJob(env, RunJob(env, before, base).t, inc).t, RunJob(env, other, full).t, path, rel)
            <==> StaysPut(env, base, inc, full, path, rel.target)
  {
    var t, x := RunJob(env, before, base).t, ResolvedBy(env, base, path, rel.target);
    FullGoesOnly(env, before, base, path, rel);
    UntouchedGoesOnly(env, t, inc, path, rel, x);
    FullGoesOnly(env, other, full, path, rel);
    SameWhenOnly(RunJob(env, t, inc).t, RunJob(env, other, full).t, path, rel, x, x.Some? ==> !Reaches(env, inc, x.value),
                 ResolvedBy(env, full, path, rel.target));
  }

  // ----- all calls -----

  predicate Agrees(env: Env, base: Job, inc: Job, full: Job, path: string, name: string) {
    if Reaches(env, inc, path) then ResolvedBy(env, inc, path, name) == ResolvedBy(env, full, path, name)
    else StaysPut(env, base, inc, full, path, name)
  }

  lemma SameFileSameCalls(env: Env, before: Tree, after: Tree, path: string, rel: Relationship)
    requires RegularAt(before, path) == RegularAt(after, path)
    ensures Called(env, before, path, rel) <==> Called(env, after, path, rel)
  {
    assert path in before && before[path].Regular? <==> RegularAt(before, path).Some?;
    assert path in after && after[path].Regular? <==> RegularAt(after, path).Some?;
    if Eligible(env, before, path) {
      assert ChunksIn(env, before, path) == ChunksIn(env, after, path);
    }
  }

  lemma CallAgreesIff(env: Env, before: Tables, base: Job, inc: Job, other: Tables, full: Job, path: string, rel: Relationship)
    requires Finishes(env, before, base) && base.mode.Full? && inc.mode.Incremental?
    requires Finishes(env, RunJob(env, before, base).t, inc) && Finishes(env, other, full) && full.mode.Full? && inc.sha == full.sha
    requires CoversDiff(HeadOf(env, base), HeadOf(env, inc), inc.mode.changed) && Called(env, HeadOf(env, inc), path, rel)
    ensures SameEdges(RunJob(env, RunJob(env, before, base).t, inc).t, RunJob(env, other, full).t, path, rel)
            <==> Agrees(env, base, inc, full, path, rel.target)
  {
    if Reaches(env, inc, path) {
      ChangedCallAgreesIff(env, RunJob(env, before, base).t, inc, other, full, path, rel);
    } else {
      SameFileSameCalls(env, HeadOf(env, base), HeadOf(env, inc), path, rel);
      UntouchedCallAgreesIff(env, before, base, inc, other, full, path, rel);
    }
  }

  /**
   Over the index of a full run, with a diff that names every differing file, an incremental
   run leaves the edges of a full run for all calls of the new commit if and only if every
   call of a changed file is resolved alike over the changed files and over all files, and
   every call of an untouched file is resolved as before, into an untouched file or into none.
   */
  lemma CallsAgreeIff(env: Env, before: Tables, base: Job, inc: Job, other: Tables, full: Job)
    requires Finishes(env, before, base) && base.mode.Full? && inc.mode.Incremental?
    requires Finishes(env, RunJob(env, before, base).t, inc) && Finishes(env, other, full) && full.mode.Full? && inc.sha == full.sha
    requires CoversDiff(HeadOf(env, base), HeadOf(env, inc), inc.mode.changed)
    ensures (forall path, rel :: Called(env, HeadOf(env, inc), path, rel) ==>
               SameEdges(RunJob(env, RunJob(env, before, base).t, inc).t, RunJob(env, other, full).t, path, rel))
            <==> forall path, rel :: Called(env, HeadOf(env, inc), path, rel) ==>
                                       Agrees(env, base, inc, full, path, rel.target)
  {
    forall path, rel | Called(env, HeadOf(env, inc), path, rel)
      ensures SameEdges(RunJob(env, RunJob(env, before, base).t, inc).t, RunJob(env, other, full).t, path, rel)
              <==> Agrees(env, base, inc, full, path, rel.target)
    {
      CallAgreesIff(env, before, base, inc, other, full, path, rel);
    }
  }

  // ----- internal or not -----

  lemma InternalMeaning(u: Tables, path: string, rel: Relationship)
    ensures SomeInternalEdgeRecords(u, path, rel) <==> exists x :: GoesInto(u, path, rel, Some(x))
    ensures SomeEdgeRecords(u, path, rel) <==> exists q :: GoesInto(u, path, rel, q)
  {
    if e :| e in u.edges && e.to.Some? && Records(u, path, rel, e) {
      var x :| At(u, x, e.to.value, rel.target);
      assert EdgeGoes(u, e, rel.target, Some(x)) && GoesInto(u, path, rel, Some(x));
    }
    if e :| e in u.edges && e.to.None? && Records(u, path, rel, e) {
      assert EdgeGoes(u, e, rel.target, None) && GoesInto(u, path, rel, None);
    }
    if x :| GoesInto(u, path, rel, Some(x)) {
      var e :| e in u.edges && Records(u, path, rel, e) && EdgeGoes(u, e, rel.target, Some(x));
    }
  }

  lemma InternalWhenOnly(u: Tables, path: string, rel: Relationship, x: Option<string>, stored: bool)
    requires GoesOnlyInto(u, path, rel, x, stored)
    ensures SomeInternalEdgeRecords(u, path, rel) <==> x.Some? && stored
    ensures SomeEdgeRecords(u, path, rel) <==> stored
  {
    InternalMeaning(u, path, rel);
    assert GoesInto(u, path, rel, x) <==> stored;
  }

  /** Some file that the run indexes, or the caller's own, defines the name. */
  lemma ResolvedIff(env: Env, job: Job, path: string, name: string)
    requires job.mode.Incremental? && IsWalk(env, HeadOf(env, job), job.walk) && Reaches(env, job, path)
    ensures ResolvedBy(env, job, path, name).Some?
            <==> exists q :: Reaches(env, job, q) && DefinesName(env, HeadOf(env, job), q, name)
  {
    var head := HeadOf(env, job);
    LastDefinerMeaning(env, job.mode, head, job.walk, |job.walk|, name);
    if q :| Reaches(env, job, q) && DefinesName(env, head, q, name) {
      assert IndexesName(env, job.mode, head, q, name) && q in job.walk;
    }
  }

  /** A call of a changed file is internal after the run if and only if some file on which the run acts defines its target. */
  lemma ChangedCallInternalIff(env: Env, t: Tables, inc: Job, path: string, rel: Relationship)
    requires Finishes(env, t, inc) && Reaches(env, inc, path) && Called(env, HeadOf(env, inc), path, rel)
    ensures SomeInternalEdgeRecords(RunJob(env, t, inc).t, path, rel)
            <==> exists q :: Reaches(env, inc, q) && DefinesName(env, HeadOf(env, inc), q, rel.target)
  {
    ChangedGoesOnly(env, t, inc, path, rel);
    InternalWhenOnly(RunJob(env, t, inc).t, path, rel, ResolvedBy(env, inc, path, rel.target), true);
    ResolvedIff(env, inc, path, rel.target);
  }

  /** A call of an untouched file is internal after the run if and only if it was, into an untouched file. */
  lemma UntouchedCallInternalIff(env: Env, t: Tables, inc: Job, path: string, rel: Relationship)
    requires Finishes(env, t, inc) && inc.mode.Incremental? && !Reaches(env, inc, path)
    ensures SomeInternalEdgeRecords(RunJob(env, t, inc).t, path, rel)
            <==> exists x :: GoesInto(t, path, rel, Some(x)) && !Reaches(env, inc, x)
  {
    var u := RunJob(env, t, inc).t;
    InternalMeaning(u, path, rel);
    forall x ensures GoesInto(u, path, rel, Some(x)) <==> GoesInto(t, path, rel, Some(x)) && !Reaches(env, inc, x) {
      UntouchedEdgeGoes(env, t, inc, path, rel, Some(x));
    }
  }

  /** Over the index of a full run: if and only if that resolved it into a file which the run leaves alone. */
  lemma KeptInternalIff(env: Env, before: Tables, base: Job, inc: Job, path: string, rel: Relationship)
    requires Finishes(env, before, base) && base.mode.Full? && Called(env, HeadOf(env, base), path, rel)
    requires Finishes(env, RunJob(env, before, base).t, inc) && inc.mode.Incremental? && !Reaches(env, inc, path)
    ensures SomeInternalEdgeRecords(RunJob(env, RunJob(env, before, base).t, inc).t, path, rel)
            <==> var x := ResolvedBy(env, base, path, rel.target); x.Some? && !Reaches(env, inc, x.value)
  {
    var t, x := RunJob(env, before, base).t, ResolvedBy(env, base, path, rel.target);
    FullGoesOnly(env, before, base, path, rel);
    UntouchedGoesOnly(env, t, inc, path, rel, x);
    InternalWhenOnly(RunJob(env, t, inc).t, path, rel, x, x.Some? ==> !Reaches(env, inc, x.value));
  }

  // ----- the families in which the two runs differ -----

  lemma FullJobRecords(env: Env, t: Tables, full: Job, path: string, rel: Relationship)
    requires Finishes(env, t, full) && full.mode.Full? && Resolvable(env, HeadOf(env, full), path, rel)
    ensures SomeInternalEdgeRecords(RunJob(env, t, full).t, path, rel)
  {
    FullRunIndexesFully(env, full.oracle, full.calls, t, full.sha, full.walk, full.life);
    FullIndexRecords(env, HeadOf(env, full), RunJob(env, t, full).t, path, rel);
  }

  /**
   The target is defined for the first time: the untouched caller keeps its external edge,
   and a full run stores an internal one.
   */
  lemma NewDefinitionStaysExternal(env: Env, before: Tables, base: Job, inc: Job, other: Tables, full: Job, path: string,
                                   rel: Relationship)
    requires Finishes(env, before, base) && base.mode.Full? && inc.mode.Incremental?
    requires Finishes(env, RunJob(env, before, base).t, inc) && Finishes(env, other, full) && full.mode.Full? && inc.sha == full.sha
    requires !Reaches(env, inc, path) && Called(env, HeadOf(env, base), path, rel)
    requires forall q :: !DefinesName(env, HeadOf(env, base), q, rel.target)
    requires Resolvable(env, HeadOf(env, inc), path, rel)
    ensures SomeInternalEdgeRecords(RunJob(env, other, full).t, path, rel)
    ensures GoesInto(RunJob(env, RunJob(env, before, base).t, inc).t, path, rel, None)
    ensures !SomeInternalEdgeRecords(RunJob(env, RunJob(env, before, base).t, inc).t, path, rel)
  {
    LastDefinerMeaning(env, Full, HeadOf(env, base), base.walk, |base.walk|, rel.target);
    FullGoesOnly(env, before, base, path, rel);
    UntouchedGoesOnly(env, RunJob(env, before, base).t, inc, path, rel, None);
    InternalWhenOnly(RunJob(env, RunJob(env, before, base).t, inc).t, path, rel, None, true);
    FullJobRecords(env, other, full, path, rel);
  }

  /**
   The target moves away from a file on which the run acts: the untouched caller loses its
   edge, also when a full run stores one into another file that is untouched too.
   */
  lemma RetargetedCallIsLost(env: Env, before: Tables, base: Job, inc: Job, other: Tables, full: Job, path: string,
                             rel: Relationship, z: string, b: string)
    requires Finishes(env, before, base) && base.mode.Full? && inc.mode.Incremental?
    requires Finishes(env, RunJob(env, before, base).t, inc) && Finishes(env, other, full) && full.mode.Full? && inc.sha == full.sha
    requires !Reaches(env, inc, path) && Called(env, HeadOf(env, base), path, rel) && Called(env, HeadOf(env, inc), path, rel)
    requires ResolvedBy(env, base, path, rel.target) == Some(z) && Reaches(env, inc, z)
    requires ResolvedBy(env, full, path, rel.target) == Some(b) && !Reaches(env, inc, b)
    ensures GoesInto(RunJob(env, other, full).t, path, rel, Some(b))
    ensures !SomeEdgeRecords(RunJob(env, RunJob(env, before, base).t, inc).t, path, rel)
  {
    FullGoesOnly(env, before, base, path, rel);
    UntouchedGoesOnly(env, RunJob(env, before, base).t, inc, path, rel, Some(z));
    InternalWhenOnly(RunJob(env, RunJob(env, before, base).t, inc).t, path, rel, Some(z), false);
    FullGoesOnly(env, other, full, path, rel);
  }

  /** The full run finds a later definition in an untouched file: the changed caller's edge goes into another file. */
  lemma ChangedCallGoesElsewhere(env: Env, t: Tables, inc: Job, other: Tables, full: Job, path: string, rel: Relationship,
                                 d: string, z: string)
    requires Finishes(env, t, inc) && Finishes(env, other, full) && full.mode.Full? && inc.sha == full.sha
    requires Reaches(env, inc, path) && Called(env, HeadOf(env, inc), path, rel)
    requires ResolvedBy(env, inc, path, rel.target) == Some(d) && ResolvedBy(env, full, path, rel.target) == Some(z)
    requires !Reaches(env, inc, z)
    ensures GoesInto(RunJob(env, t, inc).t, path, rel, Some(d)) && !GoesInto(RunJob(env, other, full).t, path, rel, Some(d))
    ensures GoesInto(RunJob(env, other, full).t, path, rel, Some(z)) && !GoesInto(RunJob(env, t, inc).t, path, rel, Some(z))
  {
    ChangedGoesOnly(env, t, inc, path, rel);
    FullGoesOnly(env, other, full, path, rel);
    ResolvedIsReached(env, inc, path, rel.target);
  }

  lemma ResolvedIsReached(env: Env, job: Job, path: string, name: string)
    requires job.mode.Incremental? && IsWalk(env, HeadOf(env, job), job.walk) && Reaches(env, job, path)
    ensures var x := ResolvedBy(env, job, path, name); x.Some? ==> Reaches(env, job, x.value)
  {
    LastDefinerMeaning(env, job.mode, HeadOf(env, job), job.walk, |job.walk|, name);
  }
}
