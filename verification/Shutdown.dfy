/**
 * The shutdown of an instance while the protocol runs: its consumers are workers 0 to n - 1 of the
 * protocol, every other worker belongs to another instance, and both machines move together.
 */
module Shutdown {
  import opened Base
  import opened Messages
  import opened Outbox
  import opened Retry
  import opened Protocol
  import opened Invariants
  import Lifecycle

  datatype Joint = Joint(instance: Lifecycle.Instance, system: System)

  /** A step of the instance's goroutines alone, a protocol step one of its consumers takes, or any other protocol step. */
  datatype Move =
    | Alone(event: Lifecycle.Event)
    | Together(event: Lifecycle.Event, step: Protocol.Step)
    | Elsewhere(step: Protocol.Step)

  /** Events in which no delivery is refused, handled or settled. */
  predicate Plain(instance: Lifecycle.Instance, e: Lifecycle.Event) {
    e.Consumer? ==> match e.turn
      case TakeDelivery => true
      case SeePollingCancelled => true
      case CheckStopping => !instance.stopping
      case _ => false
  }

  /**
   * What a consumer's progress through handleDelivery is in the protocol: it refuses the delivery
   * when stopping, claims and holds a copy, settles a delivery that gave it none, finishes the copy
   * it holds, and goes back to its select once the delivery is settled.
   */
  ghost predicate Paired(lib: Library, j: Joint, e: Lifecycle.Event, step: Protocol.Step)
    requires Protocol.Possible(j.system, step)
  {
    e.Consumer? && WorkerOf(step) == Some(e.i) && match e.turn
      case CheckStopping => j.instance.stopping && step.Refuse? && step.stopping
      case BeginClaim => step.Claim? && PcOf(Protocol.Next(lib, j.system, step), e.i).HoldsCopy()
      case NoClaim =>
        && (step.Claim? || step.Ingest? || (step.Refuse? && !step.stopping))
        && !PcOf(Protocol.Next(lib, j.system, step), e.i).HoldsCopy()
      case EndAttempt => step.Finish?
      case LoopAgain => step.Settle?
      case _ => false
  }

  /**
   * Steps that are not a consumer's progress: submissions, reservations, provider calls, and all that
   * other instances do. The instance itself does not crash: a Shutdown that returns has outlived its run.
   */
  predicate Outside(instance: Lifecycle.Instance, step: Protocol.Step) {
    match step
    case Submit(_, _, _, _, _, _) => true
    case Reserve(_, _, _) => true
    case Call(_, _) => true
    case Return(_, _, _) => true
    case _ => step.worker >= |instance.consumers|
  }

  ghost predicate Possible(lib: Library, j: Joint, m: Move) {
    match m
    case Alone(e) => Lifecycle.Possible(j.instance, e) && Plain(j.instance, e)
    case Together(e, step) =>
      Lifecycle.Possible(j.instance, e) && Protocol.Possible(j.system, step) && Paired(lib, j, e, step)
    case Elsewhere(step) => Protocol.Possible(j.system, step) && Outside(j.instance, step)
  }

  ghost function Next(lib: Library, j: Joint, m: Move): Joint
    requires Possible(lib, j, m)
  {
    match m
    case Alone(e) => j.(instance := Lifecycle.Next(j.instance, e))
    case Together(e, step) => Joint(Lifecycle.Next(j.instance, e), Protocol.Next(lib, j.system, step))
    case Elsewhere(step) => j.(system := Protocol.Next(lib, j.system, step))
  }

  ghost function Run(lib: Library, j: Joint, moves: seq<Move>): Joint {
    if moves == [] then j
    else
      var r := Run(lib, j, moves[..|moves| - 1]);
      var m := moves[|moves| - 1];
      if Possible(lib, r, m) then Next(lib, r, m) else r
  }

  // ---------- What a stage means ----------

  predicate Fits(stage: Lifecycle.Stage, pc: Pc) {
    match stage
    case Working => pc.HoldsCopy()
    case Between => pc.Settling?
    case _ => pc.Idle?
  }

  ghost predicate Inv(j: Joint) {
    && Lifecycle.Inv(j.instance)
    && forall i :: 0 <= i < |j.instance.consumers| ==> Fits(j.instance.consumers[i], PcOf(j.system, i))
  }

  lemma FitsAlone(s: Lifecycle.Instance, e: Lifecycle.Event, i: nat, pc: Pc)
    requires Lifecycle.Possible(s, e) && Plain(s, e) && i < |s.consumers| && Fits(s.consumers[i], pc)
    ensures i < |Lifecycle.Next(s, e).consumers| && Fits(Lifecycle.Next(s, e).consumers[i], pc)
  {
  }

  /** Where a worker's own steps leave it. */
  lemma PcAfter(lib: Library, s: System, step: Protocol.Step)
    requires Protocol.Possible(s, step) && WorkerOf(step).Some?
    ensures var pc := PcOf(Protocol.Next(lib, s, step), step.worker);
            && (step.Refuse? || step.Ingest? || step.Finish? ==> pc.Settling?)
            && (step.Claim? ==> pc.Settling? || pc.HoldsCopy())
            && (step.Call? || step.Return? ==> pc.HoldsCopy() && PcOf(s, step.worker).HoldsCopy())
            && (step.Settle? ==> pc.Idle?)
  {
    hide Accept, Recorded;
  }

  lemma FitsTogether(lib: Library, j: Joint, e: Lifecycle.Event, step: Protocol.Step)
    requires Possible(lib, j, Together(e, step))
    ensures e.Consumer? && Fits(Lifecycle.After(j.instance, e.turn), PcOf(Protocol.Next(lib, j.system, step), e.i))
  {
    hide Protocol.Next, Protocol.Possible, Lifecycle.Next, Lifecycle.Possible;
    PcAfter(lib, j.system, step);
  }

  /** Provider calls move a worker within its attempt; nothing else outside moves a consumer's worker. */
  lemma FitsElsewhere(lib: Library, j: Joint, step: Protocol.Step, i: nat)
    requires Possible(lib, j, Elsewhere(step)) && i < |j.instance.consumers| && Fits(j.instance.consumers[i], PcOf(j.system, i))
    ensures Fits(j.instance.consumers[i], PcOf(Protocol.Next(lib, j.system, step), i))
  {
    hide Protocol.Next, Protocol.Possible;
    if WorkerOf(step) == Some(i) {
      PcAfter(lib, j.system, step);
    } else {
      OthersStay(lib, j.system, step, i);
    }
  }

  /** A consumer's place in the protocol follows its stage. */
  lemma FitsKept(lib: Library, j: Joint, m: Move, i: nat)
    requires Inv(j) && Possible(lib, j, m) && i < |j.instance.consumers|
    ensures |Next(lib, j, m).instance.consumers| == |j.instance.consumers|
    ensures Fits(Next(lib, j, m).instance.consumers[i], PcOf(Next(lib, j, m).system, i))
  {
    hide Fits, Protocol.Next, Protocol.Possible, Plain, Outside;
    assert Fits(j.instance.consumers[i], PcOf(j.system, i));
    match m
    case Alone(e) =>
      FitsAlone(j.instance, e, i, PcOf(j.system, i));
    case Together(e, step) =>
      FitsTogether(lib, j, e, step);
      if e.i != i { OthersStay(lib, j.system, step, i); }
    case Elsewhere(step) =>
      FitsElsewhere(lib, j, step, i);
  }

  lemma StepInv(lib: Library, j: Joint, m: Move)
    requires Inv(j) && Possible(lib, j, m)
    ensures Inv(Next(lib, j, m))
  {
    hide Fits, Protocol.Next, Protocol.Possible, Lifecycle.Next, Lifecycle.Possible, Plain, Paired, Outside, Lifecycle.Inv;
    if !m.Elsewhere? { Lifecycle.StepInv(j.instance, m.event); }
    forall i | 0 <= i < |Next(lib, j, m).instance.consumers|
      ensures Fits(Next(lib, j, m).instance.consumers[i], PcOf(Next(lib, j, m).system, i))
    {
      FitsKept(lib, j, m, i);
    }
  }

  ghost predicate Start(j: Joint) {
    Lifecycle.Start(j.instance) && Protocol.Start(j.system)
  }

  lemma StartInv(j: Joint)
    requires Start(j)
    ensures Inv(j)
  {
    forall i | 0 <= i < |j.instance.consumers|
      ensures Fits(j.instance.consumers[i], PcOf(j.system, i))
    {
      assert j.instance.consumers[i] in j.instance.consumers;
    }
  }

  lemma {:induction false} RunInv(lib: Library, j: Joint, moves: seq<Move>)
    requires Start(j)
    ensures Inv(Run(lib, j, moves))
  {
    if moves == [] {
      StartInv(j);
      return;
    }
    hide Start, Inv, Next, Possible;
    RunInv(lib, j, moves[..|moves| - 1]);
    var r, m := Run(lib, j, moves[..|moves| - 1]), moves[|moves| - 1];
    if Possible(lib, r, m) { StepInv(lib, r, m); }
  }

  /**
   * When Shutdown has returned without error, none of the instance's workers is between Claim and
   * Finish, calls a provider or has a delivery left to settle, and none ever will be again.
   */
  lemma ShutdownDrains(lib: Library, j: Joint, moves: seq<Move>, i: nat)
    requires Start(j) && Run(lib, j, moves).instance.shutdownSucceeded && i < |Run(lib, j, moves).instance.consumers|
    ensures PcOf(Run(lib, j, moves).system, i).Idle?
    ensures Run(lib, j, moves).instance.stopping && Run(lib, j, moves).instance.pollingCancelled
    ensures forall more :: Possible(lib, Run(lib, j, moves), more) ==>
              Next(lib, Run(lib, j, moves), more).instance.shutdownSucceeded
  {
    hide Start, Run;
    RunInv(lib, j, moves);
    var r := Run(lib, j, moves);
    assert Fits(r.instance.consumers[i], PcOf(r.system, i));
    hide Protocol.Next, Protocol.Possible, Paired;
  }

  // ---------- After BeginShutdown ----------

  /** The claims worker i begins in a run, whether or not they hand out a row. */
  ghost function Claims(lib: Library, j: Joint, moves: seq<Move>, i: nat): nat {
    if moves == [] then 0
    else
      var m := moves[|moves| - 1];
      Claims(lib, j, moves[..|moves| - 1], i)
      + if Possible(lib, Run(lib, j, moves[..|moves| - 1]), m) && !m.Alone? && m.step.Claim? && m.step.worker == i then 1 else 0
  }

  lemma LateStep(lib: Library, j: Joint, m: Move, i: nat)
    requires j.instance.stopping && j.instance.pollingCancelled && i < |j.instance.consumers| && Possible(lib, j, m)
    ensures var r := Next(lib, j, m).instance;
            && r.stopping && r.pollingCancelled && |r.consumers| == |j.instance.consumers|
            && Lifecycle.ClaimsLeft(r.consumers[i]) + (if !m.Alone? && m.step.Claim? && m.step.worker == i then 1 else 0)
               <= Lifecycle.ClaimsLeft(j.instance.consumers[i])
  {
    hide Protocol.Next, Protocol.Possible, Lifecycle.Next, Lifecycle.Possible, Lifecycle.ClaimsLeft, Plain;
    if !m.Elsewhere? { Lifecycle.LateStage(j.instance, m.event, i); }
  }

  /**
   * Once BeginShutdown has returned, each worker of the instance begins at most one more claim, and
   * only for a delivery that had passed the stopping check by then.
   */
  lemma {:induction false} AtMostOneLateClaim(lib: Library, j: Joint, moves: seq<Move>, i: nat)
    requires j.instance.stopping && j.instance.pollingCancelled && i < |j.instance.consumers|
    ensures var r := Run(lib, j, moves).instance;
            && r.stopping && r.pollingCancelled && |r.consumers| == |j.instance.consumers|
            && Claims(lib, j, moves, i) + Lifecycle.ClaimsLeft(r.consumers[i]) <= Lifecycle.ClaimsLeft(j.instance.consumers[i])
  {
    if moves != [] {
      AtMostOneLateClaim(lib, j, moves[..|moves| - 1], i);
      hide Next, Possible;
      var r, m := Run(lib, j, moves[..|moves| - 1]), moves[|moves| - 1];
      if Possible(lib, r, m) { LateStep(lib, r, m, i); }
    }
  }

  // ---------- The drain comes to its end ----------

  /** Moves a consumer and its worker need to return. */
  function MovesLeft(stage: Lifecycle.Stage, pc: Pc): nat {
    match stage
    case Returned => 0
    case Selecting => 1
    case Between => 2
    case Working => if pc.Called? then 3 else if pc.Calling? then 4 else 5
    case Received => 3
    case Admitted => 6
  }

  /** The attempt failed on a row migrated with so negative a count that its delay cannot be computed. */
  predicate Stuck(pc: Pc) {
    pc.Called? && !pc.outcome.Delivered? && pc.outbox.retryCount < -1
  }

  /** A consumer past the stopping check handles its delivery, and holds a copy afterwards or none. */
  lemma AdmittedMove(lib: Library, j: Joint, i: nat, channel: Channel, e: Envelope, now: Instant, id: Id, token: Token)
      returns (m: Move)
    requires i < |j.instance.consumers| && j.instance.consumers[i] == Lifecycle.Admitted && PcOf(j.system, i).Idle?
    requires id !in j.system.rows && token !in j.system.tokens && token != NO_TOKEN
    ensures Possible(lib, j, m) && m.Together? && m.event.Consumer? && m.event.i == i
  {
    var step := if e.Malformed? || (e.Direct? && e.message.None?) then Step.Refuse(i, e, false)
                else if e.Direct? then Step.Ingest(i, e, now, 0, id, now, false)
                else Step.Claim(i, channel, e, now, token, false, false);
    PcAfter(lib, j.system, step);
    hide Protocol.Next;
    m := Together(Lifecycle.Consumer(i, if PcOf(Protocol.Next(lib, j.system, step), i).HoldsCopy() then Lifecycle.BeginClaim
                                        else Lifecycle.NoClaim), step);
  }

  /** The move of a consumer, by where it stands; the envelope is the delivery it holds. */
  lemma MoveOf(lib: Library, j: Joint, i: nat, channel: Channel, e: Envelope, now: Instant, id: Id, token: Token) returns (m: Move)
    requires Inv(j) && i < |j.instance.consumers| && j.instance.consumers[i] != Lifecycle.Returned
    requires j.instance.stopping && j.instance.pollingCancelled && !Stuck(PcOf(j.system, i))
    requires id !in j.system.rows && token !in j.system.tokens && token != NO_TOKEN
    ensures Possible(lib, j, m)
    ensures match m
            case Alone(event) => event == Lifecycle.Consumer(i, Lifecycle.SeePollingCancelled)
            case Together(event, step) => event.Consumer? && event.i == i
            case Elsewhere(step) =>
              WorkerOf(step) == Some(i) && ((step.Call? && PcOf(j.system, i).Claimed?) || (step.Return? && PcOf(j.system, i).Calling?))
  {
    var pc := PcOf(j.system, i);
    assert Fits(j.instance.consumers[i], pc);
    hide Protocol.Next;
    match j.instance.consumers[i]
    case Selecting =>
      m := Alone(Lifecycle.Consumer(i, Lifecycle.SeePollingCancelled));
    case Received =>
      m := Together(Lifecycle.Consumer(i, Lifecycle.CheckStopping), Step.Refuse(i, e, true));
    case Admitted =>
      m := AdmittedMove(lib, j, i, channel, e, now, id, token);
    case Working =>
      if pc.Claimed? {
        m := Elsewhere(Step.Call(i, now));
      } else if pc.Calling? {
        m := Elsewhere(Step.Return(i, Delivered, now));
      } else {
        m := Together(Lifecycle.Consumer(i, Lifecycle.EndAttempt), Step.Finish(i, now, 0, false));
      }
    case Between =>
      m := Together(Lifecycle.Consumer(i, Lifecycle.LoopAgain), Step.Settle(i));
  }

  lemma CallAdvances(lib: Library, s: System, step: Protocol.Step)
    requires Protocol.Possible(s, step) && (step.Call? || step.Return?)
    ensures step.Call? ==> PcOf(Protocol.Next(lib, s, step), step.worker).Calling?
    ensures step.Return? ==> PcOf(Protocol.Next(lib, s, step), step.worker).Called?
  {
  }

  lemma TogetherAdvances(lib: Library, j: Joint, e: Lifecycle.Event, step: Protocol.Step)
    requires Inv(j) && j.instance.stopping && j.instance.pollingCancelled && Possible(lib, j, Together(e, step)) && e.Consumer?
    ensures e.i < |Next(lib, j, Together(e, step)).instance.consumers|
    ensures MovesLeft(Next(lib, j, Together(e, step)).instance.consumers[e.i], PcOf(Next(lib, j, Together(e, step)).system, e.i))
          < MovesLeft(j.instance.consumers[e.i], PcOf(j.system, e.i))
  {
    hide Protocol.Next, Protocol.Possible;
  }

  /**
   * Once BeginShutdown has returned, a consumer that has not returned can move, whatever delivery it
   * holds, and comes nearer to its return by it; the one exception is a worker whose attempt failed on
   * a row migrated with a retry count below -2.
   */
  lemma DrainAdvances(lib: Library, j: Joint, i: nat, channel: Channel, e: Envelope, now: Instant, id: Id, token: Token)
      returns (m: Move)
    requires Inv(j) && i < |j.instance.consumers| && j.instance.consumers[i] != Lifecycle.Returned
    requires j.instance.stopping && j.instance.pollingCancelled && !Stuck(PcOf(j.system, i))
    requires id !in j.system.rows && token !in j.system.tokens && token != NO_TOKEN
    ensures Possible(lib, j, m) && i < |Next(lib, j, m).instance.consumers|
    ensures MovesLeft(Next(lib, j, m).instance.consumers[i], PcOf(Next(lib, j, m).system, i))
          < MovesLeft(j.instance.consumers[i], PcOf(j.system, i))
  {
    m := MoveOf(lib, j, i, channel, e, now, id, token);
    assert Fits(j.instance.consumers[i], PcOf(j.system, i));
    hide Protocol.Next, Protocol.Possible;
    match m
    case Alone(_) =>
    case Together(event, step) => TogetherAdvances(lib, j, event, step);
    case Elsewhere(step) => CallAdvances(lib, j.system, step);
  }
}
