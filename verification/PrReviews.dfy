/**
 The review row of one (pull request, commit) over all its executions
 (backend/src/modules/pr-review/services/pr-review.service.ts).

 Executions for one commit are serial.  At every await the plan says what happens: it
 works, it throws without effect, it takes effect and then throws (the reply is lost), or
 the process dies there.
 */
module PrReviews {
  import opened Wrappers
  import Writeback

  type Finding = Writeback.Finding

  datatype Status = PENDING | RUNNING | COMPLETE | FAILED
  datatype Row = Row(status: Status, findings: seq<Finding>, failed: bool, writebackFailed: bool)

  /** A request that left for GitHub: the row when it was sent, what it carried, and its fate. */
  datatype Sent = Sent(row: Row, findings: seq<Finding>, received: bool, acknowledged: bool)

  datatype World = World(row: Option<Row>, sent: seq<Sent>, llmCalls: nat)

  datatype Await = Ok | Throws | Lost | Dies
  datatype Posting = Accepted | Refused | Unsent | LostReply | PostDies(received: bool)
  datatype Outcome = Returned | Threw | Died

  datatype Plan = Plan(
    create: Await, lookup: Await, takeOver: Await,   // the claim
    load: Await, analyse: Await, llm: Await, score: Await, save: Await, usageLog: Await,
    post: Posting, recordFailure: Await, markFailed: Await,
    findings: seq<Finding>)                          // what this execution's LLM call yields

  /** runPrReview is also called on its own by the evaluation harness. */
  datatype Execution = Job(plan: Plan) | Eval(plan: Plan)

  // ----- the claim -----

  datatype Claim = Claimed(w: World) | Stopped(w: World, outcome: Outcome)

  function Broken(a: Await): Outcome {
    if a.Dies? then Died else Threw
  }

  function TakenOver(row: Row): Row {
    row.(status := RUNNING, failed := false, writebackFailed := false)
  }

  /** The create, and the take-over of an existing row that is not COMPLETE. */
  function ClaimRow(w: World, p: Plan): Claim {
    if p.create.Throws? || p.create.Dies? then Stopped(w, Broken(p.create))
    else if w.row.None? then
      var w1 := w.(row := Some(Row(RUNNING, [], false, false)));
      if p.create.Ok? then Claimed(w1) else Stopped(w1, Threw)
    else if !p.lookup.Ok? then Stopped(w, Broken(p.lookup))
    else if w.row.value.status.COMPLETE? then Stopped(w, Returned)
    else
      var w1 := w.(row := Some(TakenOver(w.row.value)));
      match p.takeOver
      case Ok => Claimed(w1)
      case Lost => Stopped(w1, Threw)
      case _ => Stopped(w, Broken(p.takeOver))
  }

  // ----- the pipeline -----

  datatype Progress = Saved(w: World) | Failing(w: World) | Dead(w: World)

  function Break(w: World, a: Await): Progress {
    if a.Dies? then Dead(w) else Failing(w)
  }

  /** runPrReview after its claim: the LLM call, the save as COMPLETE, the usage log. */
  function ReviewRow(w: World, p: Plan): Progress
    requires w.row.Some?
  {
    if !p.analyse.Ok? then Break(w, p.analyse)
    else if p.llm.Dies? then Dead(w)
    else
      var w1 := w.(llmCalls := w.llmCalls + 1);
      if !p.llm.Ok? then Failing(w1)
      else if !p.score.Ok? then Break(w1, p.score)
      else
        var w2 := w1.(row := Some(w.row.value.(status := COMPLETE, findings := p.findings)));
        match p.save
        case Throws => Failing(w1)
        case Dies => Dead(w1)
        case Lost => Failing(w2)
        case Ok => if p.usageLog.Ok? then Saved(w2) else Break(w2, p.usageLog)
  }

  function Record(w: World, p: Plan): World
    requires w.row.Some?
  {
    match p.post
    case Accepted => w.(sent := w.sent + [Sent(w.row.value, p.findings, true, true)])
    case Refused => w.(sent := w.sent + [Sent(w.row.value, p.findings, false, false)])
    case Unsent => w
    case LostReply => w.(sent := w.sent + [Sent(w.row.value, p.findings, true, false)])
    case PostDies(received) => w.(sent := w.sent + [Sent(w.row.value, p.findings, received, false)])
  }

  datatype Finished = Finished(w: World, outcome: Outcome) | FailingAfterPost(w: World)

  /** postWritebackAndRecordFailure. */
  function WriteBack(w: World, p: Plan): Finished
    requires w.row.Some?
  {
    var w1 := Record(w, p);
    match p.post
    case Accepted => Finished(w1, Returned)
    case PostDies(_) => Finished(w1, Died)
    case _ =>
      var w2 := w1.(row := Some(w.row.value.(writebackFailed := true)));
      match p.recordFailure
      case Ok => Finished(w2, Returned)
      case Dies => Finished(w1, Died)
      case Lost => FailingAfterPost(w2)
      case Throws => FailingAfterPost(w1)
  }

  /** The catch block: mark the row FAILED and rethrow. */
  function MarkFailed(w: World, p: Plan): (World, Outcome)
    requires w.row.Some?
  {
    var w1 := w.(row := Some(w.row.value.(status := FAILED, failed := true)));
    match p.markFailed
    case Ok => (w1, Threw)
    case Lost => (w1, Threw)
    case Throws => (w, Threw)
    case Dies => (w, Died)
  }

  function AfterSave(w: World, p: Plan): (World, Outcome)
    requires w.row.Some?
  {
    match WriteBack(w, p)
    case Finished(w1, outcome) => (w1, outcome)
    case FailingAfterPost(w1) => MarkFailed(w1, p)
  }

  function ProcessJob(w: World, p: Plan): (World, Outcome) {
    match ClaimRow(w, p)
    case Stopped(w1, outcome) => (w1, outcome)
    case Claimed(w1) =>
      if !p.load.Ok? then (if p.load.Dies? then (w1, Died) else MarkFailed(w1, p))
      else
        match ReviewRow(w1, p)
        case Dead(w2) => (w2, Died)
        case Failing(w2) => MarkFailed(w2, p)
        case Saved(w2) => AfterSave(w2, p)
  }

  function RunReview(w: World, p: Plan): (World, Outcome) {
    if !p.load.Ok? then (w, Broken(p.load))
    else
      match ClaimRow(w, p)
      case Stopped(w1, outcome) => (w1, outcome)
      case Claimed(w1) =>
        match ReviewRow(w1, p)
        case Dead(w2) => (w2, Died)
        case Failing(w2) => (w2, Threw)
        case Saved(w2) => (w2, Returned)
  }

  function Execute(w: World, e: Execution): World {
    if e.Job? then ProcessJob(w, e.plan).0 else RunReview(w, e.plan).0
  }

  // ----- the invariants -----

  predicate IsComplete(w: World) {
    w.row.Some? && w.row.value.status.COMPLETE?
  }

  function Acknowledged(sent: seq<Sent>): nat {
    if sent == [] then 0
    else Acknowledged(sent[..|sent| - 1]) + if sent[|sent| - 1].acknowledged then 1 else 0
  }

  function Received(sent: seq<Sent>): nat {
    if sent == [] then 0
    else Received(sent[..|sent| - 1]) + if sent[|sent| - 1].received then 1 else 0
  }

  /** Every request was sent while the row was COMPLETE and carried the row's findings. */
  ghost predicate SentFromComplete(w: World) {
    forall k :: 0 <= k < |w.sent| ==> w.sent[k].row.status.COMPLETE? && w.sent[k].row.findings == w.sent[k].findings
  }

  ghost predicate Inv(w: World) {
    SentFromComplete(w) && Acknowledged(w.sent) <= 1 && (Acknowledged(w.sent) == 1 ==> IsComplete(w))
  }

  /** GitHub has at most one review, and while it has one nothing will be posted again. */
  ghost predicate PostedAtMostOnce(w: World) {
    Received(w.sent) <= 1 && (Received(w.sent) == 1 ==> IsComplete(w))
  }

  lemma OneMoreSent(sent: seq<Sent>, s: Sent)
    ensures Acknowledged(sent + [s]) == Acknowledged(sent) + if s.acknowledged then 1 else 0
    ensures Received(sent + [s]) == Received(sent) + if s.received then 1 else 0
  {
    assert (sent + [s])[..|sent|] == sent;
  }

  /** An execution that finds the row COMPLETE changes nothing, calls no LLM and posts nothing. */
  lemma CompleteIsLeftAlone(w: World, e: Execution)
    requires IsComplete(w)
    ensures Execute(w, e) == w
  {}

  lemma RecordStep(w: World, p: Plan)
    requires IsComplete(w) && w.row.value.findings == p.findings
    ensures var r := Record(w, p);
            && r.row == w.row && (SentFromComplete(w) ==> SentFromComplete(r))
            && Acknowledged(r.sent) == Acknowledged(w.sent) + (if p.post.Accepted? then 1 else 0)
            && Received(r.sent) == Received(w.sent) + (if Arrives(p) then 1 else 0)
  {
    if !p.post.Unsent? {
      var s := Sent(w.row.value, p.findings, Arrives(p), p.post.Accepted?);
      OneMoreSent(w.sent, s);
      assert Record(w, p).sent == w.sent + [s];
    }
  }

  lemma WriteBackStep(w: World, p: Plan)
    requires IsComplete(w)
    ensures var r := WriteBack(w, p);
            && IsComplete(r.w) && r.w.sent == Record(w, p).sent
            && (r.FailingAfterPost? <==> p.post in {Refused, Unsent, LostReply} && p.recordFailure in {Throws, Lost})
  {}

  /** GitHub receives the request of this plan. */
  predicate Arrives(p: Plan) {
    p.post.Accepted? || p.post.LostReply? || (p.post.PostDies? && p.post.received)
  }

  /** The execution gets as far as posting. */
  predicate ReachesPost(w: World, p: Plan) {
    ClaimRow(w, p).Claimed? && p.load.Ok? && ReviewRow(ClaimRow(w, p).w, p).Saved?
  }

  /**
   The one way to a second review: GitHub gets the request but its reply is lost, recording
   that failure throws, and the row is then marked FAILED, so the next execution starts over.
   */
  predicate Reopens(w: World, e: Execution) {
    e.Job? && ReachesPost(w, e.plan) && MarkedAfterLostReply(e.plan)
  }

  predicate MarkedAfterLostReply(p: Plan) {
    p.post.LostReply? && p.recordFailure in {Throws, Lost} && p.markFailed in {Ok, Lost}
  }

  lemma NoPostStep(w: World, e: Execution)
    requires !(e.Job? && ReachesPost(w, e.plan))
    ensures Execute(w, e).sent == w.sent
    ensures IsComplete(w) ==> IsComplete(Execute(w, e))
  {}

  lemma ReachingPost(w: World, p: Plan)
    requires ReachesPost(w, p)
    ensures var w2 := ReviewRow(ClaimRow(w, p).w, p).w;
            && !IsComplete(w) && IsComplete(w2) && w2.row.value.findings == p.findings && w2.sent == w.sent
            && ProcessJob(w, p) == AfterSave(w2, p)
  {}

  lemma AfterSaveStep(w: World, p: Plan)
    requires IsComplete(w)
    ensures var w' := AfterSave(w, p).0;
            && w'.sent == Record(w, p).sent && (p.post.Accepted? ==> IsComplete(w'))
            && (Arrives(p) ==> (IsComplete(w') <==> !MarkedAfterLostReply(p)))
  {
    WriteBackStep(w, p);
  }

  lemma SameRequests(w: World, w': World)
    requires w.sent == w'.sent
    ensures SentFromComplete(w) <==> SentFromComplete(w')
  {}

  lemma PostStep(w: World, p: Plan)
    requires ReachesPost(w, p)
    ensures var w' := ProcessJob(w, p).0;
            && (SentFromComplete(w) ==> SentFromComplete(w'))
            && Acknowledged(w'.sent) == Acknowledged(w.sent) + (if p.post.Accepted? then 1 else 0)
            && Received(w'.sent) == Received(w.sent) + (if Arrives(p) then 1 else 0)
            && (p.post.Accepted? ==> IsComplete(w'))
            && (Arrives(p) ==> (IsComplete(w') <==> !Reopens(w, Job(p))))
    ensures !IsComplete(w)
  {
    var w2 := ReviewRow(ClaimRow(w, p).w, p).w;
    ReachingPost(w, p);
    SameRequests(w, w2);
    RecordStep(w2, p);
    AfterSaveStep(w2, p);
    SameRequests(Record(w2, p), ProcessJob(w, p).0);
  }

  lemma ExecutionKeepsInv(w: World, e: Execution)
    requires Inv(w)
    ensures Inv(Execute(w, e))
  {
    if e.Job? && ReachesPost(w, e.plan) {
      PostStep(w, e.plan);
    } else {
      NoPostStep(w, e);
    }
  }

  /** One execution keeps "posted at most once" if and only if it is not the reopening one. */
  lemma AtMostOncePreservedIff(w: World, e: Execution)
    requires PostedAtMostOnce(w)
    ensures PostedAtMostOnce(Execute(w, e)) <==> !Reopens(w, e)
  {
    if e.Job? && ReachesPost(w, e.plan) {
      PostStep(w, e.plan);
    } else {
      NoPostStep(w, e);
    }
  }

  // ----- how an execution ends -----

  /** The execution gets the row: it creates it, or takes over one that is not COMPLETE. */
  predicate GetsRow(w: World, p: Plan) {
    if w.row.None? then p.create.Ok?
    else p.create in {Ok, Lost} && p.lookup.Ok? && !IsComplete(w) && p.takeOver.Ok?
  }

  /** What becomes of two awaits in a row. */
  function Then(a: Await, b: Await): Await {
    if a.Ok? then b else a
  }

  /** What becomes of the pipeline: the first of its awaits that does not work decides. */
  function Pipeline(p: Plan): Await {
    Then(p.load, Then(p.analyse, Then(p.llm, Then(p.score, Then(p.save, p.usageLog)))))
  }

  predicate PipelineWorks(p: Plan) {
    Pipeline(p).Ok?
  }

  predicate PipelineDies(p: Plan) {
    Pipeline(p).Dies?
  }

  /** The row is saved as COMPLETE. */
  predicate Saves(p: Plan) {
    Then(p.load, Then(p.analyse, Then(p.llm, p.score))).Ok? && p.save in {Ok, Lost}
  }

  /** The post was not acknowledged, and the process has outlived it. */
  predicate PostFails(p: Plan) {
    p.post in {Refused, Unsent, LostReply}
  }

  /** Something throws after the claim: the pipeline, or the recording of a failed post. */
  predicate Raises(p: Plan) {
    if PipelineWorks(p) then PostFails(p) && p.recordFailure in {Throws, Lost} else !PipelineDies(p)
  }

  /** What becomes of the claim's awaits; the take-over is not tried on a COMPLETE row. */
  function Claiming(w: World, p: Plan): Await {
    if w.row.None? || p.create in {Throws, Dies} then p.create
    else Then(p.lookup, if IsComplete(w) then Ok else p.takeOver)
  }

  /** The claim's write took effect, but its reply was lost. */
  predicate ClaimIsLost(w: World, p: Plan) {
    if w.row.None? then p.create.Lost?
    else p.create in {Ok, Lost} && p.lookup.Ok? && !IsComplete(w) && p.takeOver.Lost?
  }

  function FindingsBefore(w: World): seq<Finding> {
    if w.row.Some? then w.row.value.findings else []
  }

  /** Without the row the job stops: it returns if the row is COMPLETE, dies where the plan says, and otherwise throws; it posts nothing. */
  lemma WithoutRow(w: World, p: Plan)
    requires !GetsRow(w, p)
    ensures var (w', r) := ProcessJob(w, p);
            && (r == Returned <==> IsComplete(w) && p.create in {Ok, Lost} && p.lookup.Ok?)
            && (r == Died <==> Claiming(w, p).Dies?)
            && w' == if ClaimIsLost(w, p) then w.(row := Some(Row(RUNNING, FindingsBefore(w), false, false))) else w
  {}

  predicate MarksFailed(p: Plan) {
    Raises(p) && p.markFailed in {Ok, Lost}
  }

  /** A failed post is put on record. */
  predicate RecordsFailure(p: Plan) {
    PipelineWorks(p) && PostFails(p) && p.recordFailure in {Ok, Lost}
  }

  /**
   With the row, the job returns exactly when its pipeline works and its post is acknowledged
   or recorded as failed; it throws exactly when something raised and the catch block was
   outlived, and otherwise it dies. The row is FAILED if the catch block wrote, else COMPLETE
   if the save took effect, and a failed post is on record; there is one model call and one
   post at most.
   */
  lemma WithRow(w: World, p: Plan)
    requires GetsRow(w, p)
    ensures var (w', r) := ProcessJob(w, p);
            && (r == Returned <==> PipelineWorks(p) && (p.post.Accepted? || (PostFails(p) && p.recordFailure.Ok?)))
            && (r == Threw <==> Raises(p) && !p.markFailed.Dies?)
            && w'.row == Some(Row(if MarksFailed(p) then FAILED else if Saves(p) then COMPLETE else RUNNING,
                                  if Saves(p) then p.findings else FindingsBefore(w), MarksFailed(p), RecordsFailure(p)))
            && w'.llmCalls == w.llmCalls + (if p.load.Ok? && p.analyse.Ok? && !p.llm.Dies? then 1 else 0)
            && |w'.sent| == |w.sent| + if PipelineWorks(p) && !p.post.Unsent? then 1 else 0
  {
    var w1 := ClaimRow(w, p).w;
    if p.load.Ok? {
      ReviewEnds(w1, p);
      if PipelineWorks(p) { SavedEnds(ReviewRow(w1, p).w, p); }
    }
  }

  lemma ReviewEnds(w: World, p: Plan)
    requires w.row.Some? && p.load.Ok?
    ensures var r := ReviewRow(w, p);
            && (r.Saved? <==> PipelineWorks(p)) && (r.Dead? <==> PipelineDies(p))
            && r.w.sent == w.sent && r.w.row.Some?
            && r.w.llmCalls == w.llmCalls + (if p.analyse.Ok? && !p.llm.Dies? then 1 else 0)
            && r.w.row == if Saves(p) then Some(w.row.value.(status := COMPLETE, findings := p.findings)) else w.row
  {}

  lemma SavedEnds(w: World, p: Plan)
    requires w.row.Some? && w.row.value == Row(COMPLETE, p.findings, false, false) && PipelineWorks(p)
    ensures var (w', r) := AfterSave(w, p);
            && w'.llmCalls == w.llmCalls
            && (r == Returned <==> p.post.Accepted? || (PostFails(p) && p.recordFailure.Ok?))
            && (r == Threw <==> Raises(p) && !p.markFailed.Dies?)
            && w'.row == Some(Row(if MarksFailed(p) then FAILED else COMPLETE, p.findings, MarksFailed(p), RecordsFailure(p)))
            && |w'.sent| == |w.sent| + if p.post.Unsent? then 0 else 1
  {}

  /**
   The evaluation harness loads first, and has no catch block: it returns exactly when its
   awaits work or the row is COMPLETE, dies where the plan says, leaves the row RUNNING
   unless the save took effect, and posts nothing.
   */
  lemma EvalEnds(w: World, p: Plan)
    ensures var (w', r) := RunReview(w, p);
            && w'.sent == w.sent
            && (r == Returned <==> (GetsRow(w, p) && PipelineWorks(p))
                                   || (p.load.Ok? && IsComplete(w) && p.create in {Ok, Lost} && p.lookup.Ok?))
            && (r == Died <==> if p.load.Ok? && !GetsRow(w, p) then Claiming(w, p).Dies? else PipelineDies(p))
            && w'.row == (if !p.load.Ok? || !(GetsRow(w, p) || ClaimIsLost(w, p)) then w.row
                          else if GetsRow(w, p) && Saves(p) then Some(Row(COMPLETE, p.findings, false, false))
                          else Some(Row(RUNNING, FindingsBefore(w), false, false)))
            && w'.llmCalls == w.llmCalls
                 + (if p.load.Ok? && GetsRow(w, p) && p.analyse.Ok? && !p.llm.Dies? then 1 else 0)
  {
    if p.load.Ok? && GetsRow(w, p) {
      ReviewEnds(ClaimRow(w, p).w, p);
    }
  }

  // ----- all executions -----

  const FRESH := World(None, [], 0)

  function After(w: World, es: seq<Execution>): World {
    if es == [] then w else Execute(After(w, es[..|es| - 1]), es[|es| - 1])
  }

  /** No execution of the history reopens the row. */
  ghost predicate NeverReopens(w: World, es: seq<Execution>) {
    forall k :: 0 <= k < |es| ==> !Reopens(After(w, es[..k]), es[k])
  }

  /**
   Over any number of executions and any failure or crash at any await: at most one post is
   acknowledged, and every post was sent from a COMPLETE row with its stored findings.
   */
  lemma {:induction false} AtMostOneAcknowledgedPost(es: seq<Execution>)
    ensures Inv(After(FRESH, es))
    ensures Acknowledged(After(FRESH, es).sent) <= 1
  {
    if es == [] {
    } else {
      AtMostOneAcknowledgedPost(es[..|es| - 1]);
      ExecutionKeepsInv(After(FRESH, es[..|es| - 1]), es[|es| - 1]);
    }
  }

  /** And GitHub receives at most one, as long as no execution reopens the row. */
  lemma {:induction false} AtMostOneReceivedPost(es: seq<Execution>)
    requires NeverReopens(FRESH, es)
    ensures PostedAtMostOnce(After(FRESH, es))
  {
    if es == [] {
    } else {
      var init, last := es[..|es| - 1], es[|es| - 1];
      assert forall k :: 0 <= k < |init| ==> init[..k] == es[..k];
      AtMostOneReceivedPost(init);
      AtMostOncePreservedIff(After(FRESH, init), last);
    }
  }

  const GOOD := Plan(Ok, Ok, Ok, Ok, Ok, Ok, Ok, Ok, Ok, Accepted, Ok, Ok, [])

  /** An undisturbed execution of a row that is not COMPLETE completes it and posts once. */
  lemma UndisturbedExecutionPosts(w: World, p: Plan)
    requires !IsComplete(w) && p == GOOD.(findings := p.findings)
    ensures var (w', outcome) := ProcessJob(w, p);
            outcome == Returned && IsComplete(w') && w'.row.value.findings == p.findings
            && w'.llmCalls == w.llmCalls + 1 && w'.sent == w.sent + [Sent(w'.row.value, p.findings, true, true)]
  {}

  /** After a reopening execution an undisturbed retry posts a second review. */
  lemma ReopeningLeadsToASecondPost(w: World, p: Plan)
    requires Reopens(w, Job(p)) && Received(w.sent) == 0
    ensures Received(Execute(Execute(w, Job(p)), Job(GOOD)).sent) == 2
  {
    PostStep(w, p);
    var w1 := ProcessJob(w, p).0;
    UndisturbedExecutionPosts(w1, GOOD);
    var w2 := ProcessJob(w1, GOOD).0;
    OneMoreSent(w1.sent, Sent(w2.row.value, [], true, true));
  }

  lemma ReopeningIsPossible()
    ensures Reopens(FRESH, Job(GOOD.(post := LostReply, recordFailure := Throws)))
  {}

  // ----- the code -----

  class Database {
    var row: Option<Row>
    var sent: seq<Sent>
    var llmCalls: nat

    constructor ()
      ensures View() == FRESH
    {
      row, sent, llmCalls := None, [], 0;
    }

    function View(): World
      reads this
    {
      World(row, sent, llmCalls)
    }

    /** create, or on the unique violation look up and take over; `stop` is set when the caller must stop. */
    method ClaimOrCreate(p: Plan) returns (stop: Option<Outcome>)
      modifies this`row
      ensures match ClaimRow(old(View()), p)
              case Claimed(w) => stop == None && View() == w && row.Some?
              case Stopped(w, outcome) => stop == Some(outcome) && View() == w
    {
      if p.create.Dies? { return Some(Died); }
      if p.create.Throws? { return Some(Threw); }
      if row.None? {
        row := Some(Row(RUNNING, [], false, false));
        return if p.create.Lost? then Some(Threw) else None;
      }
      if p.lookup.Dies? { return Some(Died); }
      if !p.lookup.Ok? { return Some(Threw); }
      var existing := row.value;
      if existing.status.COMPLETE? { return Some(Returned); }
      if p.takeOver.Dies? { return Some(Died); }
      if p.takeOver.Throws? { return Some(Threw); }
      row := Some(existing.(status := RUNNING, failed := false, writebackFailed := false));
      return if p.takeOver.Lost? then Some(Threw) else None;
    }

    /** runPrReview on a claimed row; None means that it returned the saved review. */
    method RunPrReview(p: Plan) returns (stop: Option<Outcome>)
      requires row.Some?
      modifies this`row, this`llmCalls
      ensures row.Some?
      ensures match ReviewRow(old(View()), p)
              case Saved(w) => stop == None && View() == w
              case Failing(w) => stop == Some(Threw) && View() == w
              case Dead(w) => stop == Some(Died) && View() == w
    {
      if !p.analyse.Ok? { return Some(Broken(p.analyse)); }
      if p.llm.Dies? { return Some(Died); }
      llmCalls := llmCalls + 1;
      if !p.llm.Ok? { return Some(Threw); }
      var findings := p.findings;
      if !p.score.Ok? { return Some(Broken(p.score)); }
      if p.save.Dies? { return Some(Died); }
      if p.save.Throws? { return Some(Threw); }
      row := Some(row.value.(status := COMPLETE, findings := findings));
      if p.save.Lost? { return Some(Threw); }
      if !p.usageLog.Ok? { return Some(Broken(p.usageLog)); }
      return None;
    }

    /** postWritebackAndRecordFailure; Some(Threw) sends the caller to its catch block. */
    method PostWriteback(p: Plan, findings: seq<Finding>) returns (r: Outcome)
      requires row.Some? && findings == p.findings
      modifies this`row, this`sent
      ensures row.Some?
      ensures match WriteBack(old(View()), p)
              case Finished(w, outcome) => r == outcome && !r.Threw? && View() == w
              case FailingAfterPost(w) => r == Threw && View() == w
    {
      var posted := false;
      match p.post {
        case Accepted =>
          sent := sent + [Sent(row.value, findings, true, true)];
          posted := true;
        case Refused => sent := sent + [Sent(row.value, findings, false, false)];
        case Unsent =>
        case LostReply => sent := sent + [Sent(row.value, findings, true, false)];
        case PostDies(received) =>
          sent := sent + [Sent(row.value, findings, received, false)];
          return Died;
      }
      if !posted {
        if p.recordFailure.Dies? { return Died; }
        if p.recordFailure.Throws? { return Threw; }
        row := Some(row.value.(writebackFailed := true));
        if p.recordFailure.Lost? { return Threw; }
      }
      return Returned;
    }

    method RecordFailed(p: Plan) returns (r: Outcome)
      requires row.Some?
      modifies this`row
      ensures (View(), r) == MarkFailed(old(View()), p)
    {
      if p.markFailed.Dies? { return Died; }
      if p.markFailed.Throws? { return Threw; }
      row := Some(row.value.(status := FAILED, failed := true));
      return Threw;
    }

    /** runPrReview called without a pre-created row, as the evaluation harness does. */
    method RunPrReviewAlone(p: Plan) returns (r: Outcome)
      modifies this
      ensures (View(), r) == RunReview(old(View()), p)
    {
      if !p.load.Ok? { return Broken(p.load); }
      var stop := ClaimOrCreate(p);
      if stop.Some? { return stop.value; }
      stop := RunPrReview(p);
      r := if stop.Some? then stop.value else Returned;
    }

    method ProcessPrReviewJob(p: Plan) returns (r: Outcome)
      modifies this
      ensures (View(), r) == ProcessJob(old(View()), p)
    {
      var stop := ClaimOrCreate(p);
      if stop.Some? { return stop.value; }
      if p.load.Dies? { return Died; }
      r := Threw;
      if p.load.Ok? {
        stop := RunPrReview(p);
        if stop == Some(Died) { return Died; }
        if stop.None? {
          r := PostWriteback(p, row.value.findings);
        }
      }
      if r.Threw? {
        r := RecordFailed(p);
      }
    }
  }
}
