/**
 The index-job protocol of one repository: triggers that read the status and then swap it
 (backend/src/modules/indexing/services/index-job.service.ts), and a queue whose worker
 advances it with bounded retries (worker/src/queue_consumer.py).

 A state is what the database and the queue hold; a step is one atomic action of one
 party.  Any number of triggers and jobs interleave.
 */
module IndexJobs {
  import opened Wrappers
  import opened IndexTables

  const ATTEMPTS: nat := 3

  predicate NonTerminal(s: Status) {
    s in {PENDING, CLONING, PARSING, CHUNKING, EMBEDDING, STORING}
  }

  /** The status after the n-th status write of a run. */
  function StageStatus(n: nat): Status
    requires 1 <= n <= 5
  {
    [CLONING, PARSING, EMBEDDING, STORING, INDEXED][n - 1]
  }

  /** Active(n): the running attempt has made n status writes.  Raised: the handler has thrown. */
  datatype Phase = Created | Waiting | Active(stage: nat) | Raised | Completed | Dead | Cancelled
  datatype Job = Job(phase: Phase, attemptsMade: nat)
  datatype Trigger = Read(status: Status) | Owns(job: nat) | Accepted(id: nat) | Rejected | Failed

  datatype State = State(status: Status, jobs: seq<Job>, triggers: map<nat, Trigger>)

  datatype Step =
    | ReadStatus(t: nat)       // a trigger loads the repository row
    | Decide(t: nat)           // its guard, then its compare-and-swap transaction
    | Enqueue(t: nat)
    | ConnectFails             // the first enqueue throws: job and repository are set FAILED
    | Start(j: nat)
    | Advance(j: nat)
    | Fail(j: nat)             // the run throws before INDEXED
    | Settle(j: nat)           // the queue counts the failed attempt
    | Complete(j: nat)
    | EnqueueThrows(t: nat)    // fault: the job row exists but is never queued
    | LoseFailedWrite(j: nat)  // fault: the last attempt fails, before or after INDEXED, and so does the FAILED write
    | LateFail(j: nat)         // fault: the run throws after INDEXED is committed

  /** A connected repository: trigger 0 has created the first job and not yet queued it. */
  const INITIAL := State(PENDING, [Job(Created, 0)], map[0 := Owns(0)])

  /** _resolve_attempt_state: whether the running attempt is the last one. */
  predicate IsFinalAttempt(job: Job) {
    job.attemptsMade + 1 >= ATTEMPTS
  }

  predicate Enabled(s: State, step: Step) {
    match step
    case ReadStatus(t) => t !in s.triggers
    case Decide(t) => t in s.triggers && s.triggers[t].Read?
    case Enqueue(t) => Owner(s, t)
    case EnqueueThrows(t) => t != 0 && Owner(s, t)
    case ConnectFails => Owner(s, 0)
    case Start(j) => j < |s.jobs| && s.jobs[j].phase.Waiting?
    case Advance(j) => Running(s, j)
    case Fail(j) => Running(s, j)
    case LoseFailedWrite(j) => (Running(s, j) || Written(s, j)) && IsFinalAttempt(s.jobs[j])
    case LateFail(j) => Written(s, j)
    case Complete(j) => Written(s, j)
    case Settle(j) => j < |s.jobs| && s.jobs[j].phase.Raised?
  }

  predicate Owner(s: State, t: nat) {
    t in s.triggers && s.triggers[t].Owns? && s.triggers[t].job < |s.jobs|
    && s.jobs[s.triggers[t].job].phase.Created?
  }

  predicate Running(s: State, j: nat) {
    j < |s.jobs| && s.jobs[j].phase.Active? && s.jobs[j].phase.stage < 5
  }

  /** The running attempt has committed INDEXED. */
  predicate Written(s: State, j: nat) {
    j < |s.jobs| && s.jobs[j].phase == Active(5)
  }

  function SetPhase(s: State, j: nat, phase: Phase): State
    requires j < |s.jobs|
  {
    s.(jobs := s.jobs[j := s.jobs[j].(phase := phase)])
  }

  function SetTrigger(s: State, t: nat, trigger: Trigger): State {
    s.(triggers := s.triggers[t := trigger])
  }

  /** createAndEnqueueIndexJob up to the enqueue: guard, then UPDATE ... WHERE status = read status. */
  function Swap(s: State, t: nat, read: Status): State {
    if NonTerminal(read) || s.status != read then SetTrigger(s, t, Rejected)
    else State(PENDING, s.jobs + [Job(Created, 0)], s.triggers[t := Owns(|s.jobs|)])
  }

  function Next(s: State, step: Step): State
    requires Enabled(s, step)
  {
    match step
    case ReadStatus(t) => SetTrigger(s, t, Read(s.status))
    case Decide(t) => Swap(s, t, s.triggers[t].status)
    case Enqueue(t) => SetTrigger(SetPhase(s, s.triggers[t].job, Waiting), t, Accepted(s.triggers[t].job))
    case EnqueueThrows(t) => SetTrigger(s, t, Failed)
    case ConnectFails => SetTrigger(SetPhase(s, s.triggers[0].job, Cancelled), 0, Failed).(status := FAILED)
    case Start(j) => SetPhase(s, j, Active(0))
    case Advance(j) =>
      var n := s.jobs[j].phase.stage + 1;
      SetPhase(s, j, Active(n)).(status := StageStatus(n))
    case Fail(j) => SetPhase(s, j, Raised).(status := if IsFinalAttempt(s.jobs[j]) then FAILED else s.status)
    case LateFail(j) => SetPhase(s, j, Raised).(status := if IsFinalAttempt(s.jobs[j]) then FAILED else s.status)
    case LoseFailedWrite(j) => SetPhase(s, j, Raised)
    case Complete(j) => SetPhase(s, j, Completed)
    case Settle(j) =>
      var made := s.jobs[j].attemptsMade + 1;
      s.(jobs := s.jobs[j := Job(if made < ATTEMPTS then Waiting else Dead, made)])
  }

  // ----- safety -----

  /** The job can still write the repository's status. */
  predicate Live(job: Job) {
    match job.phase
    case Created => true
    case Waiting => true
    case Active(n) => n < 5
    case Raised => !IsFinalAttempt(job)
    case _ => false
  }

  ghost predicate SomeLive(s: State) {
    exists j :: 0 <= j < |s.jobs| && Live(s.jobs[j])
  }

  predicate AttemptsOk(job: Job) {
    match job.phase
    case Dead => job.attemptsMade == ATTEMPTS
    case Active(n) => n <= 5 && job.attemptsMade < ATTEMPTS
    case _ => job.attemptsMade < ATTEMPTS
  }

  ghost predicate Owned(s: State, j: nat) {
    exists t :: t in s.triggers && s.triggers[t] == Owns(j)
  }

  ghost predicate Inv(s: State) {
    && (forall i, j :: 0 <= i < j < |s.jobs| ==> !(Live(s.jobs[i]) && Live(s.jobs[j])))
    && (NonTerminal(s.status) <==> SomeLive(s))
    && (forall j :: 0 <= j < |s.jobs| ==> AttemptsOk(s.jobs[j]))
    && (forall j :: 0 <= j < |s.jobs| && s.jobs[j].phase.Created? ==> Owned(s, j))
    && (forall t :: t in s.triggers && s.triggers[t].Owns? ==>
          s.triggers[t].job < |s.jobs| && s.jobs[s.triggers[t].job].phase.Created?)
    && (forall t, u :: t in s.triggers && u in s.triggers && t != u && s.triggers[t].Owns? && s.triggers[u].Owns? ==>
          s.triggers[t].job != s.triggers[u].job)
  }

  /**
   The faults that break the protocol: all three, except a late failure of the last attempt
   that marks FAILED with no other job live, or that loses this mark.
   */
  ghost predicate Harmful(s: State, step: Step) {
    match step
    case EnqueueThrows(t) => true
    case LoseFailedWrite(j) => Running(s, j)
    case LateFail(j) => j < |s.jobs| && (!IsFinalAttempt(s.jobs[j]) || SomeLive(s))
    case _ => false
  }

  lemma InitialInv()
    ensures Inv(INITIAL)
  {
    assert INITIAL.triggers[0] == Owns(0);
    assert Live(INITIAL.jobs[0]);
  }

  lemma LiveAfter(s: State, s': State, j: nat)
    requires |s'.jobs| == |s.jobs| && j < |s.jobs|
    requires forall k :: 0 <= k < |s.jobs| && k != j ==> s'.jobs[k] == s.jobs[k]
    ensures Live(s'.jobs[j]) ==> SomeLive(s')
    ensures Inv(s) && Live(s.jobs[j]) ==> (SomeLive(s') <==> Live(s'.jobs[j]))
    ensures Inv(s) && !Live(s.jobs[j]) && !Live(s'.jobs[j]) ==> (SomeLive(s') <==> SomeLive(s))
  {
    if SomeLive(s) {
      var k :| 0 <= k < |s.jobs| && Live(s.jobs[k]);
      if k != j { assert Live(s'.jobs[k]); }
    }
  }

  /** Steps of a worker leave the triggers and the set of created jobs alone. */
  lemma WorkerStep(s: State, s': State, j: nat)
    requires Inv(s) && j < |s.jobs| && |s'.jobs| == |s.jobs| && s'.triggers == s.triggers
    requires forall k :: 0 <= k < |s.jobs| && k != j ==> s'.jobs[k] == s.jobs[k]
    requires !s.jobs[j].phase.Created? && !s'.jobs[j].phase.Created? && AttemptsOk(s'.jobs[j])
    requires Live(s'.jobs[j]) ==> Live(s.jobs[j])
    requires NonTerminal(s'.status) <==> if Live(s.jobs[j]) then Live(s'.jobs[j]) else NonTerminal(s.status)
    ensures Inv(s')
  {
    LiveAfter(s, s', j);
    forall k | 0 <= k < |s'.jobs| && s'.jobs[k].phase.Created? ensures Owned(s', k) { assert Owned(s, k); }
  }

  lemma EnqueueStep(s: State, t: nat)
    requires Inv(s) && Owner(s, t)
    ensures Inv(Next(s, Enqueue(t)))
    ensures t == 0 ==> Inv(Next(s, ConnectFails))
  {
    var j := s.triggers[t].job;
    var s' := Next(s, Enqueue(t));
    LiveAfter(s, s', j);
    NoneCreated(s, s', j);
    if t == 0 {
      var s'' := Next(s, ConnectFails);
      LiveAfter(s, s'', j);
      NoneCreated(s, s'', j);
    }
  }

  /** A created job is live, so there is no second one. */
  lemma NoneCreated(s: State, s': State, j: nat)
    requires Inv(s) && j < |s.jobs| && s.jobs[j].phase.Created? && |s'.jobs| == |s.jobs|
    requires forall k :: 0 <= k < |s.jobs| && k != j ==> s'.jobs[k] == s.jobs[k]
    requires !s'.jobs[j].phase.Created?
    ensures forall k :: 0 <= k < |s'.jobs| ==> !s'.jobs[k].phase.Created?
  {
    assert Live(s.jobs[j]);
    forall k | 0 <= k < |s'.jobs| ensures !s'.jobs[k].phase.Created? {
      assert k != j ==> !Live(s.jobs[k]);
    }
  }

  lemma DecideStep(s: State, t: nat)
    requires Inv(s) && Enabled(s, Decide(t))
    ensures Inv(Next(s, Decide(t)))
  {
    var s' := Next(s, Decide(t));
    forall k | 0 <= k < |s.jobs| && s.jobs[k].phase.Created? ensures Owned(s', k) {
      var u :| u in s.triggers && s.triggers[u] == Owns(k);
      assert s'.triggers[u] == Owns(k);
    }
    if |s'.jobs| > |s.jobs| {
      assert s'.triggers[t] == Owns(|s.jobs|);
      assert Live(s'.jobs[|s.jobs|]);
    }
  }

  lemma ReadStep(s: State, t: nat)
    requires Inv(s) && Enabled(s, ReadStatus(t))
    ensures Inv(Next(s, ReadStatus(t)))
  {
    var s' := Next(s, ReadStatus(t));
    forall k | 0 <= k < |s.jobs| && s.jobs[k].phase.Created? ensures Owned(s', k) {
      var u :| u in s.triggers && s.triggers[u] == Owns(k);
      assert s'.triggers[u] == Owns(k);
    }
  }

  lemma HarmfulStepsBreakIt(s: State, step: Step)
    requires Inv(s) && Enabled(s, step) && Harmful(s, step)
    ensures !Inv(Next(s, step))
  {
    var s' := Next(s, step);
    match step
    case EnqueueThrows(t) =>
      assert s'.jobs[s.triggers[t].job].phase.Created?;
      assert !Owned(s', s.triggers[t].job);
    case LoseFailedWrite(j) => LiveAfter(s, s', j);
    case LateFail(j) =>
      LiveAfter(s, s', j);
      if SomeLive(s) {
        var k :| 0 <= k < |s.jobs| && Live(s.jobs[k]);
        assert Live(s'.jobs[k]);
      }
    case _ =>
  }

  /** One step keeps the invariant if and only if it is not one of the harmful faults. */
  lemma StepKeepsInvIff(s: State, step: Step)
    requires Inv(s) && Enabled(s, step)
    ensures Inv(Next(s, step)) <==> !Harmful(s, step)
  {
    if Harmful(s, step) {
      HarmfulStepsBreakIt(s, step);
    } else {
      match step
      case ReadStatus(t) => ReadStep(s, t);
      case Decide(t) => DecideStep(s, t);
      case Enqueue(t) => EnqueueStep(s, t);
      case ConnectFails => EnqueueStep(s, 0);
      case EnqueueThrows(_) =>
      case Start(j) => WorkerStep(s, Next(s, step), j);
      case Advance(j) => WorkerStep(s, Next(s, step), j);
      case Fail(j) => WorkerFails(s, j);
      case LoseFailedWrite(j) => WorkerStep(s, Next(s, step), j);
      case LateFail(j) => WorkerStep(s, Next(s, step), j);
      case Complete(j) => WorkerStep(s, Next(s, step), j);
      case Settle(j) => WorkerStep(s, Next(s, step), j);
    }
  }

  lemma WorkerFails(s: State, j: nat)
    requires Inv(s) && Running(s, j)
    ensures Inv(Next(s, Fail(j)))
  {
    assert Live(s.jobs[j]);
    WorkerStep(s, Next(s, Fail(j)), j);
  }

  // ----- whole runs -----

  ghost predicate IsRun(s: State, steps: seq<Step>)
    decreases |steps|
  {
    steps == [] || (Enabled(s, steps[0]) && IsRun(Next(s, steps[0]), steps[1..]))
  }

  function End(s: State, steps: seq<Step>): State
    requires IsRun(s, steps)
    decreases |steps|
  {
    if steps == [] then s else End(Next(s, steps[0]), steps[1..])
  }

  ghost predicate Harmless(s: State, steps: seq<Step>)
    requires IsRun(s, steps)
    decreases |steps|
  {
    steps == [] || (!Harmful(s, steps[0]) && Harmless(Next(s, steps[0]), steps[1..]))
  }

  /**
   Over every interleaving without a harmful fault, at most one job is live and the status
   is non-terminal exactly while one is.
   */
  lemma {:induction false} AtMostOneLiveJob(s: State, steps: seq<Step>)
    requires Inv(s) && IsRun(s, steps) && Harmless(s, steps)
    ensures Inv(End(s, steps))
    decreases |steps|
  {
    if steps == [] {
    } else {
      StepKeepsInvIff(s, steps[0]);
      AtMostOneLiveJob(Next(s, steps[0]), steps[1..]);
    }
  }

  /** So it is from the connected repository on. */
  lemma AtMostOneLiveJobFromTheStart(steps: seq<Step>, i: nat, j: nat)
    requires IsRun(INITIAL, steps) && Harmless(INITIAL, steps)
    ensures var s := End(INITIAL, steps);
            && (i < j < |s.jobs| ==> !(Live(s.jobs[i]) && Live(s.jobs[j])))
            && (NonTerminal(s.status) <==> SomeLive(s))
  {
    InitialInv();
    AtMostOneLiveJob(INITIAL, steps);
  }

  /** A step of the worker or the queue on job j. */
  predicate Works(step: Step, j: nat) {
    step in {Start(j), Advance(j), Fail(j), Settle(j), Complete(j), LoseFailedWrite(j), LateFail(j)}
  }

  /** What is left of a job's life: every worker step uses some of it. */
  function Budget(job: Job): nat {
    var left := if job.attemptsMade < ATTEMPTS then ATTEMPTS - job.attemptsMade else 0;
    match job.phase
    case Created => 8 * left
    case Waiting => 8 * left
    case Active(n) => if left == 0 then 0 else 8 * left - 1 - if n <= 5 then n else 5
    case Raised => if left == 0 then 0 else 8 * left - 7
    case _ => 0
  }

  function WorkOn(steps: seq<Step>, j: nat): nat {
    if steps == [] then 0 else (if Works(steps[0], j) then 1 else 0) + WorkOn(steps[1..], j)
  }

  function FailuresOf(steps: seq<Step>, j: nat): nat {
    if steps == [] then 0
    else (if steps[0] in {Fail(j), LoseFailedWrite(j), LateFail(j)} then 1 else 0) + FailuresOf(steps[1..], j)
  }

  /** Attempts that have already thrown. */
  function Thrown(job: Job): nat {
    job.attemptsMade + if job.phase.Raised? then 1 else 0
  }

  lemma StepSpendsBudget(s: State, step: Step, j: nat)
    requires Enabled(s, step) && j < |s.jobs| && AttemptsOk(s.jobs[j])
    ensures j < |Next(s, step).jobs| && AttemptsOk(Next(s, step).jobs[j])
    ensures Budget(Next(s, step).jobs[j]) + (if Works(step, j) then 1 else 0) <= Budget(s.jobs[j])
    ensures Thrown(Next(s, step).jobs[j])
         == Thrown(s.jobs[j]) + if step in {Fail(j), LoseFailedWrite(j), LateFail(j)} then 1 else 0
  {}

  /** A job gets at most 24 worker steps in any run, faults included, so it cannot be retried forever. */
  lemma {:induction false} JobsEnd(s: State, steps: seq<Step>, j: nat)
    requires IsRun(s, steps) && j < |s.jobs| && AttemptsOk(s.jobs[j])
    ensures j < |End(s, steps).jobs| && AttemptsOk(End(s, steps).jobs[j])
    ensures WorkOn(steps, j) + Budget(End(s, steps).jobs[j]) <= Budget(s.jobs[j]) <= 24
    ensures Thrown(End(s, steps).jobs[j]) == Thrown(s.jobs[j]) + FailuresOf(steps, j)
    decreases |steps|
  {
    if steps == [] {
    } else {
      StepSpendsBudget(s, steps[0], j);
      JobsEnd(Next(s, steps[0]), steps[1..], j);
    }
  }

  /** A job is dead only after all three attempts threw, and completes after at most two did. */
  lemma DeadOnlyAfterEveryAttempt(s: State, steps: seq<Step>, j: nat)
    requires IsRun(s, steps) && j < |s.jobs| && s.jobs[j] == Job(Created, 0)
    ensures j < |End(s, steps).jobs|
    ensures End(s, steps).jobs[j].phase.Dead? ==> FailuresOf(steps, j) == 3
    ensures End(s, steps).jobs[j].phase.Completed? ==> FailuresOf(steps, j) < 3
    ensures FailuresOf(steps, j) <= 3
  {
    JobsEnd(s, steps, j);
  }

  /** The attempts of job j that threw, also when the run itself creates the job. */
  lemma {:induction false} ThrownInRun(s: State, steps: seq<Step>, j: nat)
    requires IsRun(s, steps) && AllAttemptsOk(s) && j < |End(s, steps).jobs|
    ensures Thrown(End(s, steps).jobs[j])
            == (if j < |s.jobs| then Thrown(s.jobs[j]) else 0) + FailuresOf(steps, j)
    decreases |steps|
  {
    if steps == [] {
    } else {
      StepKeepsAttempts(s, steps[0]);
      StepThrows(s, steps[0], j);
      ThrownInRun(Next(s, steps[0]), steps[1..], j);
    }
  }

  ghost predicate AllAttemptsOk(s: State) {
    forall j :: 0 <= j < |s.jobs| ==> AttemptsOk(s.jobs[j])
  }

  lemma StepKeepsAttempts(s: State, step: Step)
    requires AllAttemptsOk(s) && Enabled(s, step)
    ensures AllAttemptsOk(Next(s, step))
  {
    forall j | 0 <= j < |Next(s, step).jobs| ensures AttemptsOk(Next(s, step).jobs[j]) {
      if j < |s.jobs| { StepSpendsBudget(s, step, j); }
    }
  }

  lemma StepThrows(s: State, step: Step, j: nat)
    requires AllAttemptsOk(s) && Enabled(s, step)
    ensures j < |Next(s, step).jobs| ==>
              Thrown(Next(s, step).jobs[j]) == (if j < |s.jobs| then Thrown(s.jobs[j]) else 0) + FailuresOf([step], j)
    ensures j >= |Next(s, step).jobs| ==> FailuresOf([step], j) == 0
  {
    assert FailuresOf([step], j) == if step in {Fail(j), LoseFailedWrite(j), LateFail(j)} then 1 else 0 by {
      assert [step][1..] == [];
    }
    if j < |s.jobs| { StepSpendsBudget(s, step, j); }
  }

  /** Some job has used up its attempts, or the connect path has cancelled the first one. */
  ghost predicate SomeJobFailed(s: State) {
    exists j :: 0 <= j < |s.jobs| && JobFailed(s.jobs[j])
  }

  predicate JobFailed(job: Job) {
    Thrown(job) == ATTEMPTS || job.phase.Cancelled?
  }

  lemma FailedStep(s: State, step: Step)
    requires AllAttemptsOk(s) && Enabled(s, step) && (s.status == FAILED ==> SomeJobFailed(s))
    ensures Next(s, step).status == FAILED ==> SomeJobFailed(Next(s, step))
  {
    var s' := Next(s, step);
    if s'.status == FAILED {
      if s.status == FAILED {
        var j :| 0 <= j < |s.jobs| && JobFailed(s.jobs[j]);
        assert JobFailed(s'.jobs[j]);
      } else if step.ConnectFails? {
        assert JobFailed(s'.jobs[s.triggers[0].job]);
      } else {
        assert JobFailed(s'.jobs[step.j]);
      }
    }
  }

  lemma {:induction false} FailedRun(s: State, steps: seq<Step>)
    requires IsRun(s, steps) && AllAttemptsOk(s) && (s.status == FAILED ==> SomeJobFailed(s))
    ensures End(s, steps).status == FAILED ==> SomeJobFailed(End(s, steps))
    decreases |steps|
  {
    if steps == [] {
    } else {
      StepKeepsAttempts(s, steps[0]);
      FailedStep(s, steps[0]);
      FailedRun(Next(s, steps[0]), steps[1..]);
    }
  }

  lemma {:induction false} CancelledOnlyByConnect(s: State, steps: seq<Step>, j: nat)
    requires IsRun(s, steps) && j < |End(s, steps).jobs| && End(s, steps).jobs[j].phase.Cancelled?
    requires j < |s.jobs| ==> !s.jobs[j].phase.Cancelled?
    ensures ConnectFails in steps
    decreases |steps|
  {
    if steps == [] {
    } else if steps[0] != ConnectFails {
      CancelledOnlyByConnect(Next(s, steps[0]), steps[1..], j);
    }
  }

  /**
   The repository is FAILED only after every attempt failed: in any run from the connected
   repository, faults included, some job then has thrown three times, or the first enqueue
   failed.
   */
  lemma FailedOnlyAfterEveryAttempt(steps: seq<Step>)
    requires IsRun(INITIAL, steps) && End(INITIAL, steps).status == FAILED
    ensures (exists j: nat :: FailuresOf(steps, j) == ATTEMPTS) || ConnectFails in steps
  {
    var s := End(INITIAL, steps);
    FailedRun(INITIAL, steps);
    var j: nat :| j < |s.jobs| && JobFailed(s.jobs[j]);
    if s.jobs[j].phase.Cancelled? {
      CancelledOnlyByConnect(INITIAL, steps, j);
    } else {
      ThrownInRun(INITIAL, steps, j);
    }
  }

  /** Some attempt of the run makes its fifth status write. */
  ghost predicate SomeAttemptIndexes(s: State, steps: seq<Step>)
    requires IsRun(s, steps)
    decreases |steps|
  {
    steps != [] && (Indexes(s, steps[0]) || SomeAttemptIndexes(Next(s, steps[0]), steps[1..]))
  }

  predicate Indexes(s: State, step: Step) {
    step.Advance? && step.j < |s.jobs| && s.jobs[step.j].phase == Active(4)
  }

  lemma {:induction false} IndexedRun(s: State, steps: seq<Step>)
    requires IsRun(s, steps) && s.status != INDEXED && End(s, steps).status == INDEXED
    ensures SomeAttemptIndexes(s, steps)
    decreases |steps|
  {
    if steps == [] {
    } else if !Indexes(s, steps[0]) {
      assert Next(s, steps[0]).status != INDEXED;
      IndexedRun(Next(s, steps[0]), steps[1..]);
    }
  }

  /** And it is INDEXED only after some attempt went through all its stages. */
  lemma IndexedOnlyAfterAFullAttempt(steps: seq<Step>)
    requires IsRun(INITIAL, steps) && End(INITIAL, steps).status == INDEXED
    ensures SomeAttemptIndexes(INITIAL, steps)
  {
    IndexedRun(INITIAL, steps);
  }

  /** Nothing is left to do for any party that has begun. */
  ghost predicate Quiescent(s: State) {
    && (forall t: nat :: !Enabled(s, Decide(t)) && !Enabled(s, Enqueue(t)))
    && (forall j: nat :: !Enabled(s, Start(j)) && !Enabled(s, Advance(j)) && !Enabled(s, Settle(j))
                         && !Enabled(s, Complete(j)))
  }

  /** When everybody has stopped, no job is live and the repository is INDEXED or FAILED. */
  lemma QuiescentIsTerminal(s: State)
    requires Inv(s) && Quiescent(s)
    ensures !SomeLive(s) && s.status in {INDEXED, FAILED}
  {
    forall t: nat | t in s.triggers ensures !s.triggers[t].Owns? {
      assert !Enabled(s, Enqueue(t));
    }
    forall j: nat | j < |s.jobs| ensures !Live(s.jobs[j]) {
      assert !Enabled(s, Start(j)) && !Enabled(s, Advance(j)) && !Enabled(s, Settle(j));
    }
    assert !NonTerminal(s.status);
    match s.status
    case INDEXED =>
    case FAILED =>
    case _ =>
  }

  // ----- what the faults lead to -----

  /** The first job has run to INDEXED and a second trigger has created the next one. */
  const TWO_JOBS := State(PENDING, [Job(Active(5), 0), Job(Created, 0)], map[0 := Accepted(0), 1 := Owns(1)])

  const TO_TWO_JOBS: seq<Step> := [Enqueue(0), Start(0), Advance(0), Advance(0), Advance(0), Advance(0), Advance(0),
                                   ReadStatus(1), Decide(1)]

  /** On the way there: after four steps, and after seven. */
  const PARSED := State(PARSING, [Job(Active(2), 0)], map[0 := Accepted(0)])
  const INDEXED_ONCE := State(INDEXED, [Job(Active(5), 0)], map[0 := Accepted(0)])

  lemma FirstFourSteps()
    ensures IsRun(INITIAL, [Enqueue(0), Start(0), Advance(0), Advance(0)])
    ensures End(INITIAL, [Enqueue(0), Start(0), Advance(0), Advance(0)]) == PARSED
  {
    var s1 := Next(INITIAL, Enqueue(0));
    var s2 := Next(s1, Start(0));
    FirstOf(INITIAL, Enqueue(0), [Start(0), Advance(0), Advance(0)]);
    FirstOf(s1, Start(0), [Advance(0), Advance(0)]);
    FirstOf(s2, Advance(0), [Advance(0)]);
    FirstOf(Next(s2, Advance(0)), Advance(0), []);
  }

  lemma NextThreeSteps()
    ensures IsRun(PARSED, [Advance(0), Advance(0), Advance(0)])
    ensures End(PARSED, [Advance(0), Advance(0), Advance(0)]) == INDEXED_ONCE
  {
    var s1 := Next(PARSED, Advance(0));
    FirstOf(PARSED, Advance(0), [Advance(0), Advance(0)]);
    FirstOf(s1, Advance(0), [Advance(0)]);
    FirstOf(Next(s1, Advance(0)), Advance(0), []);
  }

  lemma SecondTrigger()
    ensures IsRun(INDEXED_ONCE, [ReadStatus(1), Decide(1)])
    ensures End(INDEXED_ONCE, [ReadStatus(1), Decide(1)]) == TWO_JOBS
  {
    FirstOf(INDEXED_ONCE, ReadStatus(1), [Decide(1)]);
    FirstOf(Next(INDEXED_ONCE, ReadStatus(1)), Decide(1), []);
  }

  lemma TwoJobsIsReachable()
    ensures IsRun(INITIAL, TO_TWO_JOBS) && End(INITIAL, TO_TWO_JOBS) == TWO_JOBS
  {
    FirstFourSteps();
    NextThreeSteps();
    SecondTrigger();
    var first: seq<Step> := [Enqueue(0), Start(0), Advance(0), Advance(0)];
    var second: seq<Step> := [Advance(0), Advance(0), Advance(0)];
    var third: seq<Step> := [ReadStatus(1), Decide(1)];
    RunsCompose(PARSED, second, third);
    RunsCompose(INITIAL, first, second + third);
    assert first + (second + third) == TO_TWO_JOBS;
  }

  /** What the first step contributes. */
  lemma FirstOf(s: State, step: Step, rest: seq<Step>)
    requires Enabled(s, step)
    ensures IsRun(s, [step] + rest) <==> IsRun(Next(s, step), rest)
    ensures IsRun(s, [step] + rest) ==> End(s, [step] + rest) == End(Next(s, step), rest)
  {
    assert ([step] + rest)[1..] == rest;
  }

  lemma {:induction false} RunsCompose(s: State, a: seq<Step>, b: seq<Step>)
    requires IsRun(s, a) && IsRun(End(s, a), b)
    ensures IsRun(s, a + b) && End(s, a + b) == End(End(s, a), b)
    decreases |a|
  {
    if a == [] {
      assert a + b == b;
    } else {
      RunsCompose(Next(s, a[0]), a[1..], b);
      assert (a + b)[0] == a[0] && (a + b)[1..] == a[1..] + b;
    }
  }

  /** If the usage-log write fails after INDEXED, the retried job and a new one are live together. */
  lemma LateFailureGivesTwoLiveJobs()
    ensures Enabled(TWO_JOBS, LateFail(0))
    ensures var s := Next(TWO_JOBS, LateFail(0)); Live(s.jobs[0]) && Live(s.jobs[1])
  {}

  /** The status is non-terminal and no party can change it any more. */
  ghost predicate Stranded(s: State) {
    && NonTerminal(s.status)
    && (forall t :: t in s.triggers ==> !s.triggers[t].Owns?)
    && (forall j :: 0 <= j < |s.jobs| ==> s.jobs[j].phase in {Created, Completed, Dead, Cancelled})
  }

  /** If the enqueue call throws, the repository can never be indexed again: every later trigger is rejected. */
  lemma {:induction false} StrandedForever(s: State, steps: seq<Step>)
    requires Stranded(s) && IsRun(s, steps)
    ensures Stranded(End(s, steps)) && End(s, steps).status == s.status && End(s, steps).jobs == s.jobs
    decreases |steps|
  {
    if steps == [] {
    } else {
      var s' := Next(s, steps[0]);
      assert s'.status == s.status && s'.jobs == s.jobs;
      StrandedForever(s', steps[1..]);
    }
  }

  lemma ThrowingEnqueueStrands()
    ensures var s := Next(TWO_JOBS, Complete(0));
            Enabled(TWO_JOBS, Complete(0)) && Enabled(s, EnqueueThrows(1)) && Stranded(Next(s, EnqueueThrows(1)))
  {}

  // ----- the code that takes the steps -----

  datatype Result = Created_(job: nat) | AlreadyIndexing

  /** The rows and the queue that both sides share. */
  class Shared {
    var status: Status
    var jobs: seq<Job>
    var triggers: map<nat, Trigger>

    constructor ()
      ensures View() == INITIAL
    {
      status, jobs, triggers := PENDING, [Job(Created, 0)], map[0 := Owns(0)];
    }

    function View(): State
      reads this
    {
      State(status, jobs, triggers)
    }

    /** getOwnedRepository in triggerFullIndex. */
    method LoadStatus(t: nat) returns (s: Status)
      requires Enabled(View(), ReadStatus(t))
      modifies this`triggers
      ensures View() == Next(old(View()), ReadStatus(t)) && s == old(status) && triggers[t] == Read(s)
    {
      s := status;
      triggers := triggers[t := Read(s)];
    }

    /** createAndEnqueueIndexJob up to its enqueue call. */
    method CreateIndexJob(t: nat, currentStatus: Status) returns (r: Result)
      requires t in triggers && triggers[t] == Read(currentStatus)
      modifies this
      ensures View() == Next(old(View()), Decide(t))
      ensures r.Created_? <==> currentStatus in {INDEXED, FAILED} && old(status) == currentStatus
      ensures r.Created_? ==> r.job == |old(jobs)| && jobs == old(jobs) + [Job(Created, 0)] && status == PENDING
                              && triggers[t] == Owns(r.job)
      ensures !r.Created_? ==> jobs == old(jobs) && status == old(status) && triggers[t] == Rejected
    {
      if NonTerminal(currentStatus) {
        triggers := triggers[t := Rejected];
        return AlreadyIndexing;
      }
      if status != currentStatus {
        triggers := triggers[t := Rejected];
        return AlreadyIndexing;
      }
      status := PENDING;
      var id := |jobs|;
      jobs := jobs + [Job(Created, 0)];
      triggers := triggers[t := Owns(id)];
      return Created_(id);
    }

    method EnqueueIndexJob(t: nat)
      requires Enabled(View(), Enqueue(t))
      modifies this
      ensures View() == Next(old(View()), Enqueue(t))
      ensures var id := old(triggers[t].job);
              jobs == old(jobs)[id := Job(Waiting, old(jobs)[id].attemptsMade)] && triggers[t] == Accepted(id) && status == old(status)
    {
      var id := triggers[t].job;
      jobs := jobs[id := jobs[id].(phase := Waiting)];
      triggers := triggers[t := Accepted(id)];
    }

    /**
     One uninterrupted attempt of process_job: the run makes `stages` status writes and then
     returns or throws; on the last attempt a throw writes FAILED unless that write fails too.
     */
    method ProcessJob(j: nat, stages: nat, throws: bool, markFails: bool) returns (raised: bool)
      requires j < |jobs| && jobs[j].phase.Waiting? && stages <= 5 && (!throws ==> stages == 5)
      modifies this
      ensures raised <==> throws
      ensures IsRun(old(View()), AttemptSteps(old(jobs[j]), j, stages, throws, markFails))
      ensures View() == End(old(View()), AttemptSteps(old(jobs[j]), j, stages, throws, markFails))
      ensures AttemptLeaves(old(View()), View(), j, stages, throws, markFails)
    {
      ghost var before := View();
      ghost var job := jobs[j];
      var isFinal := jobs[j].attemptsMade + 1 >= ATTEMPTS;
      jobs := jobs[j := jobs[j].(phase := Active(0))];
      AdvanceRun(before, j, 0);
      for n := 0 to stages
        invariant j < |jobs| && jobs[j] == job.(phase := Active(n)) && triggers == before.triggers
        invariant IsRun(before, [Start(j)] + Advances(j, n)) && View() == End(before, [Start(j)] + Advances(j, n))
      {
        status := StageStatus(n + 1);
        jobs := jobs[j := jobs[j].(phase := Active(n + 1))];
        OneMore(before, [Start(j)] + Advances(j, n), Advance(j));
        assert [Start(j)] + Advances(j, n) + [Advance(j)] == [Start(j)] + Advances(j, n + 1);
      }
      OneMore(before, [Start(j)] + Advances(j, stages), LastStep(job, j, stages, throws, markFails));
      AttemptEnds(before, j, stages, throws, markFails);
      if throws {
        if isFinal && !markFails {
          status := FAILED;
        }
        jobs := jobs[j := jobs[j].(phase := Raised)];
      } else {
        jobs := jobs[j := jobs[j].(phase := Completed)];
      }
      return throws;
    }
  }

  function Advances(j: nat, n: nat): seq<Step> {
    seq(n, _ => Advance(j))
  }

  function LastStep(job: Job, j: nat, stages: nat, throws: bool, markFails: bool): Step {
    if !throws then Complete(j)
    else if IsFinalAttempt(job) && markFails then LoseFailedWrite(j)
    else if stages == 5 then LateFail(j)
    else Fail(j)
  }

  /** The protocol steps of one attempt. */
  function AttemptSteps(job: Job, j: nat, stages: nat, throws: bool, markFails: bool): seq<Step> {
    [Start(j)] + Advances(j, stages) + [LastStep(job, j, stages, throws, markFails)]
  }

  lemma AdvanceRun(s: State, j: nat, n: nat)
    requires Enabled(s, Start(j)) && n == 0
    ensures IsRun(s, [Start(j)] + Advances(j, 0)) && End(s, [Start(j)] + Advances(j, 0)) == Next(s, Start(j))
  {
    assert [Start(j)] + Advances(j, 0) == [Start(j)];
    assert IsRun(Next(s, Start(j)), []);
  }

  lemma {:induction false} OneMore(s: State, steps: seq<Step>, step: Step)
    requires IsRun(s, steps) && Enabled(End(s, steps), step)
    ensures IsRun(s, steps + [step]) && End(s, steps + [step]) == Next(End(s, steps), step)
    decreases |steps|
  {
    if steps == [] {
      assert [] + [step] == [step] && [step][1..] == [];
      assert IsRun(Next(s, step), []);
    } else {
      OneMore(Next(s, steps[0]), steps[1..], step);
      assert (steps + [step])[1..] == steps[1..] + [step];
    }
  }

  /**
   What an attempt leaves: its job raised or completed, no other job and no trigger touched,
   and the status of its last write, FAILED if it was the third attempt and threw.
   */
  predicate AttemptLeaves(s: State, s': State, j: nat, stages: nat, throws: bool, markFails: bool)
    requires j < |s.jobs| && stages <= 5
  {
    && s'.jobs == s.jobs[j := s.jobs[j].(phase := if throws then Raised else Completed)] && s'.triggers == s.triggers
    && s'.status == if throws && s.jobs[j].attemptsMade >= 2 && !markFails then FAILED
                    else if stages == 0 then s.status
                    else [CLONING, PARSING, EMBEDDING, STORING, INDEXED][stages - 1]
  }

  lemma {:induction false} AdvancedState(s: State, j: nat, n: nat)
    requires j < |s.jobs| && s.jobs[j].phase.Waiting? && n <= 5
    ensures IsRun(s, [Start(j)] + Advances(j, n))
    ensures End(s, [Start(j)] + Advances(j, n))
            == State(if n == 0 then s.status else [CLONING, PARSING, EMBEDDING, STORING, INDEXED][n - 1],
                     s.jobs[j := s.jobs[j].(phase := Active(n))], s.triggers)
  {
    if n == 0 {
      AdvanceRun(s, j, 0);
    } else {
      AdvancedState(s, j, n - 1);
      OneMore(s, [Start(j)] + Advances(j, n - 1), Advance(j));
      assert [Start(j)] + Advances(j, n - 1) + [Advance(j)] == [Start(j)] + Advances(j, n);
    }
  }

  lemma AttemptEnds(s: State, j: nat, stages: nat, throws: bool, markFails: bool)
    requires j < |s.jobs| && s.jobs[j].phase.Waiting? && stages <= 5 && (!throws ==> stages == 5)
    ensures IsRun(s, AttemptSteps(s.jobs[j], j, stages, throws, markFails))
    ensures AttemptLeaves(s, End(s, AttemptSteps(s.jobs[j], j, stages, throws, markFails)), j, stages, throws, markFails)
  {
    AdvancedState(s, j, stages);
    OneMore(s, [Start(j)] + Advances(j, stages), LastStep(s.jobs[j], j, stages, throws, markFails));
  }
}
