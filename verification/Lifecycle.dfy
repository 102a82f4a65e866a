/**
 * Shutdown of one service instance (service.go New, consumeConnection, BeginShutdown, Shutdown):
 * any number of consumers and a relay run as separate goroutines, interleaved step by step.
 */
module Lifecycle {
  /**
   * Where a consumer stands: at the select, holding a delivery it has not looked at, past the
   * stopping check, between Claim and Finish, between two deliveries, or returned.
   */
  datatype Stage = Selecting | Received | Admitted | Working | Between | Returned

  /** BeginShutdown sets `stopping`, then cancels polling; it has returned once both are set. */
  datatype Instance = Instance(
    stopping: bool, pollingCancelled: bool, workCancelled: bool, relayReturned: bool, finished: bool,
    shutdownSucceeded: bool, consumers: seq<Stage>)

  /** What a consumer does next. */
  datatype Turn =
    | TakeDelivery
    | SeePollingCancelled
    | CheckStopping
    | BeginClaim
    | NoClaim
    | EndAttempt
    | LoopAgain

  datatype Event =
    | SetStopping
    | CancelPolling
    | RelayReturns
    | CloseFinished
    | ShutdownDrained
    | ShutdownTimedOut
    | Consumer(i: nat, turn: Turn)

  predicate AllReturned(s: Instance) {
    forall i :: 0 <= i < |s.consumers| ==> s.consumers[i] == Returned
  }

  /** The stage from which a consumer takes a turn. */
  function Before(turn: Turn): Stage {
    match turn
    case TakeDelivery => Selecting
    case SeePollingCancelled => Selecting
    case CheckStopping => Received
    case BeginClaim => Admitted
    case NoClaim => Admitted
    case EndAttempt => Working
    case LoopAgain => Between
  }

  /** The stage to which it leads. A delivery received after cancellation is dropped unsettled and the consumer returns. */
  function After(s: Instance, turn: Turn): Stage {
    match turn
    case TakeDelivery => if s.pollingCancelled then Returned else Received
    case SeePollingCancelled => Returned
    case CheckStopping => if s.stopping then Between else Admitted
    case BeginClaim => Working
    case NoClaim => Between
    case EndAttempt => Between
    case LoopAgain => Selecting
  }

  predicate Possible(s: Instance, e: Event) {
    match e
    case SetStopping => true
    case CancelPolling => s.stopping
    case RelayReturns => s.pollingCancelled
    case CloseFinished => s.relayReturned && AllReturned(s)
    case ShutdownDrained => s.stopping && s.pollingCancelled && s.finished
    case ShutdownTimedOut => s.stopping && s.pollingCancelled
    case Consumer(i, turn) =>
      i < |s.consumers| && s.consumers[i] == Before(turn) && (turn == SeePollingCancelled ==> s.pollingCancelled)
  }

  function Next(s: Instance, e: Event): Instance
    requires Possible(s, e)
  {
    match e
    case SetStopping => s.(stopping := true)
    case CancelPolling => s.(pollingCancelled := true)
    case RelayReturns => s.(relayReturned := true)
    case CloseFinished => s.(finished := true)
    case ShutdownDrained => s.(shutdownSucceeded := true, workCancelled := true)
    case ShutdownTimedOut => s.(workCancelled := true)
    case Consumer(i, turn) => s.(consumers := s.consumers[i := After(s, turn)])
  }

  /** New: nothing is stopping and every consumer is at its select. */
  predicate Start(s: Instance) {
    && !s.stopping && !s.pollingCancelled && !s.workCancelled && !s.relayReturned && !s.finished && !s.shutdownSucceeded
    && forall c <- s.consumers :: c == Selecting
  }

  predicate Inv(s: Instance) {
    && (s.pollingCancelled ==> s.stopping)
    && (s.finished ==> AllReturned(s))
    && (s.shutdownSucceeded ==> s.finished && s.pollingCancelled)
  }

  lemma StepInv(s: Instance, e: Event)
    requires Inv(s) && Possible(s, e)
    ensures Inv(Next(s, e)) && |Next(s, e).consumers| == |s.consumers|
  {
  }

  // ---------- After BeginShutdown ----------

  /** A consumer that had passed the stopping check may still begin one claim. */
  function ClaimsLeft(stage: Stage): nat {
    if stage == Admitted then 1 else 0
  }

  lemma LateStage(s: Instance, e: Event, i: nat)
    requires s.stopping && s.pollingCancelled && i < |s.consumers| && Possible(s, e)
    ensures Next(s, e).stopping && Next(s, e).pollingCancelled && |Next(s, e).consumers| == |s.consumers|
    ensures ClaimsLeft(Next(s, e).consumers[i]) + (if e == Consumer(i, BeginClaim) || e == Consumer(i, NoClaim) then 1 else 0)
         <= ClaimsLeft(s.consumers[i])
  {
  }

  /** Steps a consumer needs to return once BeginShutdown has returned. */
  function StepsToReturn(stage: Stage): nat {
    match stage
    case Returned => 0
    case Selecting => 1
    case Between => 2
    case Working => 3
    case Received => 3
    case Admitted => 4
  }

  function NextTurn(stage: Stage): (turn: Turn)
    requires stage != Returned
    ensures Before(turn) == stage
  {
    match stage
    case Selecting => SeePollingCancelled
    case Received => CheckStopping
    case Admitted => BeginClaim
    case Working => EndAttempt
    case Between => LoopAgain
  }

  /**
   * From then on every step of a consumer brings it nearer to its return, no other step holds it
   * back, and it can move until it has returned.
   */
  lemma DrainProgress(s: Instance, e: Event, i: nat)
    requires s.stopping && s.pollingCancelled && i < |s.consumers| && Possible(s, e)
    ensures Next(s, e).stopping && Next(s, e).pollingCancelled && |Next(s, e).consumers| == |s.consumers|
    ensures if e.Consumer? && e.i == i
            then StepsToReturn(Next(s, e).consumers[i]) < StepsToReturn(s.consumers[i])
            else Next(s, e).consumers[i] == s.consumers[i]
    ensures s.consumers[i] != Returned ==> exists turn :: Possible(s, Consumer(i, turn))
  {
    if s.consumers[i] != Returned {
      assert Possible(s, Consumer(i, NextTurn(s.consumers[i])));
    }
  }

  /** Once the last consumer has returned, the relay returns and Shutdown succeeds. */
  lemma ShutdownCanSucceed(s: Instance)
    requires s.stopping && s.pollingCancelled && AllReturned(s)
    ensures Possible(s, RelayReturns) && Possible(Next(s, RelayReturns), CloseFinished)
    ensures Possible(Next(Next(s, RelayReturns), CloseFinished), ShutdownDrained)
    ensures Next(Next(Next(s, RelayReturns), CloseFinished), ShutdownDrained).shutdownSucceeded
  {
  }

  /** Before that a consumer goes round: it takes a delivery, refuses or handles it, and comes back for the next. */
  lemma Serves(s: Instance)
    requires !s.pollingCancelled
    ensures After(s, TakeDelivery) == Before(CheckStopping)
    ensures After(s, CheckStopping) == if s.stopping then Before(LoopAgain) else Before(BeginClaim)
    ensures Before(NoClaim) == Before(BeginClaim) && After(s, BeginClaim) == Before(EndAttempt)
    ensures After(s, NoClaim) == After(s, EndAttempt) == Before(LoopAgain) && After(s, LoopAgain) == Before(TakeDelivery)
  {
  }
}
