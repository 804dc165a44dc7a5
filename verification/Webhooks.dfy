/**
 The webhook claim (backend/src/modules/webhooks/services/idempotency.service.ts) and the
 controller around it (webhooks.controller.ts): claim, run the handler, release on failure.

 Deliveries and redeliveries run concurrently; a state is the set of claim rows and where
 every delivery is, and a step is one atomic action of one delivery.
 */
module Webhooks {
  datatype Stage =
    | Claiming              // accepted, before the insert
    | Handling              // owns the claim
    | Releasing             // the handler threw, before the delete
    | Succeeded
    | Deduped               // another delivery owns the claim
    | Released              // threw, and the claim row is gone
    | Stuck                 // threw or died, and the claim row is still there
    | Failed                // the insert threw without effect

  datatype Delivery = Delivery(event: string, stage: Stage)

  datatype State = State(claims: set<string>, deliveries: map<nat, Delivery>)

  datatype Step =
    | Arrive(d: nat, event: string)
    | Claim(d: nat)                 // INSERT under the unique key on event_id
    | ClaimThrows(d: nat)           // the insert fails for another reason
    | ClaimReplyLost(d: nat)        // the insert takes effect but its reply is lost
    | Succeed(d: nat)
    | Throw(d: nat)
    | Release(d: nat)               // DELETE of the claim row
    | ReleaseFails(d: nat)          // the delete fails; its error is swallowed
    | Die(d: nat)                   // the process dies while handling or releasing

  const EMPTY := State({}, map[])

  predicate At(s: State, d: nat, stage: Stage) {
    d in s.deliveries && s.deliveries[d].stage == stage
  }

  function Move(s: State, d: nat, stage: Stage): State
    requires d in s.deliveries
  {
    s.(deliveries := s.deliveries[d := s.deliveries[d].(stage := stage)])
  }

  predicate Enabled(s: State, step: Step) {
    match step
    case Arrive(d, _) => d !in s.deliveries
    case Claim(d) => At(s, d, Claiming)
    case ClaimThrows(d) => At(s, d, Claiming)
    case ClaimReplyLost(d) => At(s, d, Claiming) && s.deliveries[d].event !in s.claims
    case Succeed(d) => At(s, d, Handling)
    case Throw(d) => At(s, d, Handling)
    case Release(d) => At(s, d, Releasing)
    case ReleaseFails(d) => At(s, d, Releasing)
    case Die(d) => At(s, d, Handling) || At(s, d, Releasing)
  }

  function Next(s: State, step: Step): State
    requires Enabled(s, step)
  {
    match step
    case Arrive(d, event) => s.(deliveries := s.deliveries[d := Delivery(event, Claiming)])
    case Claim(d) =>
      var event := s.deliveries[d].event;
      if event in s.claims then Move(s, d, Deduped)
      else Move(s, d, Handling).(claims := s.claims + {event})
    case ClaimThrows(d) => Move(s, d, Failed)
    case ClaimReplyLost(d) => Move(s, d, Stuck).(claims := s.claims + {s.deliveries[d].event})
    case Succeed(d) => Move(s, d, Succeeded)
    case Throw(d) => Move(s, d, Releasing)
    case Release(d) => Move(s, d, Released).(claims := s.claims - {s.deliveries[d].event})
    case ReleaseFails(d) => Move(s, d, Stuck)
    case Die(d) => Move(s, d, Stuck)
  }

  // ----- safety -----

  /** The delivery's insert succeeded and its row has not been deleted. */
  predicate Holds(x: Delivery) {
    x.stage in {Handling, Releasing, Succeeded, Stuck}
  }

  ghost predicate HasHolder(s: State, event: string) {
    exists d :: d in s.deliveries && Holds(s.deliveries[d]) && s.deliveries[d].event == event
  }

  ghost predicate OneHolder(s: State, d: nat, e: nat) {
    (d in s.deliveries && e in s.deliveries && Holds(s.deliveries[d]) && Holds(s.deliveries[e])
     && s.deliveries[d].event == s.deliveries[e].event) ==> d == e
  }

  ghost predicate HolderHasRow(s: State, d: nat) {
    d in s.deliveries && Holds(s.deliveries[d]) ==> s.deliveries[d].event in s.claims
  }

  /** A claim row has exactly one holder, and no delivery holds without a row. */
  ghost predicate Inv(s: State) {
    && (forall d, e :: OneHolder(s, d, e))
    && (forall d :: HolderHasRow(s, d))
    && (forall event :: event in s.claims ==> HasHolder(s, event))
  }

  /** What a step of delivery d leaves behind for every other holder. */
  lemma RowKeepsHolder(s: State, step: Step, event: string)
    requires Inv(s) && Enabled(s, step) && event in Next(s, step).claims
    ensures HasHolder(Next(s, step), event)
  {
    var s', d := Next(s, step), step.d;
    if d in s'.deliveries && s'.deliveries[d].event == event && Holds(s'.deliveries[d]) {
    } else {
      assert HasHolder(s, event);
      var x :| x in s.deliveries && Holds(s.deliveries[x]) && s.deliveries[x].event == event;
      assert OneHolder(s, x, d);
      assert x in s'.deliveries && s'.deliveries[x] == s.deliveries[x];
    }
  }

  lemma HoldersStayApart(s: State, step: Step, d: nat, e: nat)
    requires Inv(s) && Enabled(s, step)
    ensures OneHolder(Next(s, step), d, e) && HolderHasRow(Next(s, step), d)
  {
    assert OneHolder(s, d, e) && OneHolder(s, d, step.d) && HolderHasRow(s, d) && HolderHasRow(s, e);
  }

  lemma StepKeepsInv(s: State, step: Step)
    requires Inv(s) && Enabled(s, step)
    ensures Inv(Next(s, step))
  {
    var s' := Next(s, step);
    forall d, e ensures OneHolder(s', d, e) { HoldersStayApart(s, step, d, e); }
    forall d ensures HolderHasRow(s', d) { HoldersStayApart(s, step, d, d); }
    forall event | event in s'.claims ensures HasHolder(s', event) { RowKeepsHolder(s, step, event); }
  }

  ghost predicate IsRun(s: State, steps: seq<Step>)
    decreases |steps|
  {
    steps == [] || (Enabled(s, steps[0]) && IsRun(Next(s, steps[0]), steps[1..]))
  }

  function End(s: State, steps: seq<Step>): State
    requires IsRun(s, steps)
    decreases |steps|
  {
    if steps == [] then s else End(Next(s, steps[0]), steps[1..])
  }

  lemma FirstStep(s: State, step: Step, rest: seq<Step>)
    requires Enabled(s, step) && IsRun(Next(s, step), rest)
    ensures IsRun(s, [step] + rest) && End(s, [step] + rest) == End(Next(s, step), rest)
  {
    assert ([step] + rest)[1..] == rest;
  }

  lemma {:induction false} RunKeepsInv(s: State, steps: seq<Step>)
    requires Inv(s) && IsRun(s, steps)
    ensures Inv(End(s, steps))
    decreases |steps|
  {
    if steps == [] {
    } else {
      StepKeepsInv(s, steps[0]);
      RunKeepsInv(Next(s, steps[0]), steps[1..]);
    }
  }

  /**
   Over every interleaving of deliveries, failures and redeliveries: two deliveries of one
   event never handle it together, and never both succeed.
   */
  lemma AtMostOneHandlerAndOneSuccess(steps: seq<Step>, d: nat, e: nat)
    requires IsRun(EMPTY, steps)
    requires var s := End(EMPTY, steps);
             d in s.deliveries && e in s.deliveries && s.deliveries[d].event == s.deliveries[e].event
             && s.deliveries[d].stage in {Handling, Succeeded} && s.deliveries[e].stage in {Handling, Succeeded}
    ensures d == e
  {
    RunKeepsInv(EMPTY, steps);
    assert OneHolder(End(EMPTY, steps), d, e);
  }

  lemma {:induction false} FinalStagesStay(s: State, steps: seq<Step>, d: nat)
    requires IsRun(s, steps) && d in s.deliveries && s.deliveries[d].stage in {Succeeded, Stuck}
    ensures d in End(s, steps).deliveries && End(s, steps).deliveries[d] == s.deliveries[d]
    decreases |steps|
  {
    if steps == [] {
    } else {
      FinalStagesStay(Next(s, steps[0]), steps[1..], d);
    }
  }

  /** Once a delivery has succeeded, or is stuck with its claim, no other delivery of the event ever handles it. */
  lemma ClaimIsForever(s: State, steps: seq<Step>, d: nat, e: nat)
    requires Inv(s) && IsRun(s, steps) && d in s.deliveries && s.deliveries[d].stage in {Succeeded, Stuck}
    requires e != d && e in End(s, steps).deliveries && End(s, steps).deliveries[e].event == s.deliveries[d].event
    ensures !Holds(End(s, steps).deliveries[e])
  {
    RunKeepsInv(s, steps);
    FinalStagesStay(s, steps, d);
    assert OneHolder(End(s, steps), d, e);
  }

  /** A redelivery gets the claim if and only if no delivery of the event holds it. */
  lemma RedeliveryHandlesIff(s: State, d: nat)
    requires Inv(s) && At(s, d, Claiming)
    ensures At(Next(s, Claim(d)), d, Handling) <==> !HasHolder(s, s.deliveries[d].event)
  {
    if HasHolder(s, s.deliveries[d].event) {
      var x :| x in s.deliveries && Holds(s.deliveries[x]) && s.deliveries[x].event == s.deliveries[d].event;
      assert HolderHasRow(s, x);
    }
  }

  /** A released failure lets the next delivery of the event run its handler. */
  lemma ReleasedEventCanBeRetried(s: State, d: nat, later: nat)
    requires Inv(s) && At(s, d, Releasing) && later !in s.deliveries
    ensures var s1 := Next(s, Release(d));
            Enabled(s1, Arrive(later, s.deliveries[d].event)) &&
            var s2 := Next(s1, Arrive(later, s.deliveries[d].event));
            Enabled(s2, Claim(later)) && At(Next(s2, Claim(later)), later, Handling)
  {}

  // ----- the code -----

  /** How one delivery's insert, its handler and its release fare. */
  datatype Insert = Works | Fails | ReplyLost
  datatype Handler = Returns | Throws(releaseWorks: bool)
  datatype Fate = Fate(insert: Insert, handler: Handler)
  datatype Response = Processed | DedupedResponse | Threw | BadRequest

  /** The step that the insert is; on the unique key it has no effect whose reply could be lost. */
  function InsertStep(s: State, d: nat, event: string, insert: Insert): Step {
    match insert
    case Works => Claim(d)
    case Fails => ClaimThrows(d)
    case ReplyLost => if event in s.claims then ClaimThrows(d) else ClaimReplyLost(d)
  }

  function ResponseOf(s: State, event: string, fate: Fate): Response {
    if !fate.insert.Works? then Threw
    else if event in s.claims then DedupedResponse
    else if fate.handler.Returns? then Processed
    else Threw
  }

  /** The steps after the insert. */
  function HandlerSteps(s: State, d: nat, event: string, fate: Fate): seq<Step> {
    if !fate.insert.Works? || event in s.claims then []
    else if fate.handler.Returns? then [Succeed(d)]
    else [Throw(d), if fate.handler.releaseWorks then Release(d) else ReleaseFails(d)]
  }

  /** The protocol steps one uninterrupted delivery takes. */
  function StepsOf(s: State, d: nat, event: string, fate: Fate): seq<Step> {
    [Arrive(d, event), InsertStep(s, d, event, fate.insert)] + HandlerSteps(s, d, event, fate)
  }

  /** Where those steps lead. */
  function AfterDelivery(s: State, d: nat, event: string, fate: Fate): State
    requires d !in s.deliveries
  {
    var s2 := Next(Next(s, Arrive(d, event)), InsertStep(s, d, event, fate.insert));
    if !fate.insert.Works? || event in s.claims then s2
    else if fate.handler.Returns? then Next(s2, Succeed(d))
    else Next(Next(s2, Throw(d)), if fate.handler.releaseWorks then Release(d) else ReleaseFails(d))
  }

  lemma DeliveryIsRun(s: State, d: nat, event: string, fate: Fate)
    requires d !in s.deliveries
    ensures IsRun(s, StepsOf(s, d, event, fate))
    ensures End(s, StepsOf(s, d, event, fate)) == AfterDelivery(s, d, event, fate)
  {
    var s1, insert, rest := Next(s, Arrive(d, event)), InsertStep(s, d, event, fate.insert), HandlerSteps(s, d, event, fate);
    var s2 := Next(s1, insert);
    if !fate.insert.Works? || event in s.claims {
    } else if fate.handler.Returns? {
      FirstStep(s2, Succeed(d), []);
      assert rest == [Succeed(d)] + [];
    } else {
      var last := if fate.handler.releaseWorks then Release(d) else ReleaseFails(d);
      FirstStep(Next(s2, Throw(d)), last, []);
      FirstStep(s2, Throw(d), [last] + []);
      assert rest == [Throw(d)] + ([last] + []);
    }
    FirstStep(s1, insert, rest);
    FirstStep(s, Arrive(d, event), [insert] + rest);
    assert [Arrive(d, event)] + ([insert] + rest) == StepsOf(s, d, event, fate);
  }

  /**
   What a delivery that nobody interrupts comes to. Its handler runs exactly when the insert
   works and no claim row is there; then the answer and the final stage tell how the handler
   fared, and its error is never swallowed. The claim row stays exactly after a success, after
   a failure that could not be released, and after an insert whose reply was lost.
   */
  ghost predicate Settled(before: State, after: State, d: nat, event: string, fate: Fate, r: Response) {
    var handled := fate.insert.Works? && event !in before.claims;
    && d in after.deliveries && after.deliveries[d].event == event
    && (forall e :: e != d ==> (e in after.deliveries <==> e in before.deliveries)
                               && (e in before.deliveries ==> after.deliveries[e] == before.deliveries[e]))
    && (r == Processed <==> handled && fate.handler.Returns?)
    && (r == DedupedResponse <==> fate.insert.Works? && event in before.claims)
    && (r == Threw <==> !fate.insert.Works? || (handled && fate.handler.Throws?))
    && (after.deliveries[d].stage.Succeeded? <==> r == Processed)
    && (after.deliveries[d].stage.Deduped? <==> r == DedupedResponse)
    && (after.deliveries[d].stage.Released? <==> handled && fate.handler.Throws? && fate.handler.releaseWorks)
    && (forall x :: x != event ==> (x in after.claims <==> x in before.claims))
    && (event in after.claims <==>
          event in before.claims || fate.insert.ReplyLost? || (handled && !after.deliveries[d].stage.Released?))
  }

  lemma DeliverySettles(s: State, d: nat, event: string, fate: Fate)
    requires d !in s.deliveries
    ensures IsRun(s, StepsOf(s, d, event, fate))
    ensures Settled(s, End(s, StepsOf(s, d, event, fate)), d, event, fate, ResponseOf(s, event, fate))
  {
    DeliveryIsRun(s, d, event, fate);
  }

  class Server {
    var claims: set<string>
    var deliveries: map<nat, Delivery>

    constructor ()
      ensures View() == EMPTY
    {
      claims, deliveries := {}, map[];
    }

    function View(): State
      reads this
    {
      State(claims, deliveries)
    }

    /** tryClaimEvent; threw is an error other than the violation of the unique key. */
    method TryClaimEvent(d: nat, insert: Insert) returns (claimed: bool, threw: bool)
      requires At(View(), d, Claiming)
      modifies this
      ensures View() == Next(old(View()), InsertStep(old(View()), d, old(deliveries)[d].event, insert))
      ensures threw <==> !insert.Works?
      ensures claimed <==> deliveries[d].stage.Handling?
    {
      var x := deliveries[d];
      if insert.Fails? || (insert.ReplyLost? && x.event in claims) {
        deliveries := deliveries[d := x.(stage := Failed)];
        return false, true;
      }
      if x.event in claims {
        deliveries := deliveries[d := x.(stage := Deduped)];
        return false, false;
      }
      claims := claims + {x.event};
      deliveries := deliveries[d := x.(stage := if insert.ReplyLost? then Stuck else Handling)];
      return insert.Works?, insert.ReplyLost?;
    }

    /** The catch block: delete the claim row, swallow the error of a failing delete, rethrow. */
    method ReleaseClaim(d: nat, releaseWorks: bool)
      requires At(View(), d, Releasing)
      modifies this
      ensures View() == Next(old(View()), if releaseWorks then Release(d) else ReleaseFails(d))
    {
      var x := deliveries[d];
      if releaseWorks {
        claims := claims - {x.event};
        deliveries := deliveries[d := x.(stage := Released)];
      } else {
        deliveries := deliveries[d := x.(stage := Stuck)];
      }
    }

    /**
     postGithubWebhook for one delivery that nobody interrupts; an empty string is a missing
     header. What it does is a run of the protocol, so every theorem above covers it.
     */
    method PostGithubWebhook(d: nat, eventType: string, event: string, fate: Fate) returns (r: Response)
      requires d !in deliveries
      modifies this
      ensures eventType == "" || event == "" ==> r == BadRequest && View() == old(View())
      ensures eventType != "" && event != "" ==>
                && r == ResponseOf(old(View()), event, fate)
                && IsRun(old(View()), StepsOf(old(View()), d, event, fate))
                && View() == End(old(View()), StepsOf(old(View()), d, event, fate))
                && Settled(old(View()), View(), d, event, fate, r)
    {
      if eventType == "" || event == "" {
        return BadRequest;
      }
      ghost var s0 := View();
      DeliverySettles(s0, d, event, fate);
      deliveries := deliveries[d := Delivery(event, Claiming)];
      var claimed, threw := TryClaimEvent(d, fate.insert);
      if threw {
        DeliveryIsRun(s0, d, event, fate);
        return Threw;
      }
      if !claimed {
        DeliveryIsRun(s0, d, event, fate);
        return DedupedResponse;
      }
      if fate.handler.Returns? {
        deliveries := deliveries[d := deliveries[d].(stage := Succeeded)];
        DeliveryIsRun(s0, d, event, fate);
        return Processed;
      }
      deliveries := deliveries[d := deliveries[d].(stage := Releasing)];
      ReleaseClaim(d, fate.handler.releaseWorks);
      DeliveryIsRun(s0, d, event, fate);
      r := Threw;
    }
  }
}
