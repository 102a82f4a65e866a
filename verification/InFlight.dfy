/**
 * How the 30 s attempt, the 60 s lease and the workers' delays fit together: when two provider
 * calls for one row can never be in flight at once.
 */
module InFlight {
  import opened Base
  import opened Messages
  import opened Outbox
  import opened RowMachine
  import opened Protocol
  import opened Refinement
  import opened Invariants
  import opened Promises
  import opened Theorems

  // ---------- Who can take an attempt away ----------

  /** The row is still in the copy's attempt, or some process has read a time past its lease. */
  predicate CopyHeld(s: System, outbox: Row) {
    outbox.id in s.rows && outbox.leaseUntil.Some? && (s.rows[outbox.id] == outbox || outbox.leaseUntil.value <= s.latest)
  }

  ghost predicate AttemptsHeld(s: System) {
    forall w <- s.workers :: s.workers[w].HoldsCopy() ==> CopyHeld(s, s.workers[w].outbox)
  }

  /** Only a recovery past the lease, or its own holder, moves a row out of an attempt. */
  lemma OthersCannotEnd(lib: Library, s: System, step: Protocol.Step, w: WorkerId)
    requires Inv(lib, s) && Possible(s, step) && PcOf(s, w).HoldsCopy() && PcOf(Next(lib, s, step), w).HoldsCopy()
    requires var outbox := PcOf(s, w).outbox;
             outbox.id in s.rows && s.rows[outbox.id] == outbox && outbox.leaseUntil.Some?
             && outbox.id in Next(lib, s, step).rows && Next(lib, s, step).rows[outbox.id] != outbox
    ensures PcOf(s, w).outbox.leaseUntil.value <= Next(lib, s, step).latest
  {
    hide Next, RowsOk, CallsOk, CallersOk, IdentityOk, SettledOk, TokensApart, CopiesApart;
    StepOrderly(lib, s, step);
    assert CopyOk(s, s.workers[w].outbox);
    if step.Finish? {
      FinishIsOwn(lib, s, step, w);
      FinishLetsGo(lib, s, step);
    }
  }

  lemma FinishIsOwn(lib: Library, s: System, step: Protocol.Step, w: WorkerId)
    requires CopiesOk(s) && CopiesApart(s) && Possible(s, step) && step.Finish? && PcOf(s, w).HoldsCopy()
    requires var outbox := PcOf(s, w).outbox;
             outbox.id in s.rows && s.rows[outbox.id] == outbox
             && outbox.id in Next(lib, s, step).rows && Next(lib, s, step).rows[outbox.id] != outbox
    ensures step.worker == w
  {
    FinishFindsCopy(lib, s, step, PcOf(s, w).outbox.id);
    hide Next, CopiesOk, CopyOk;
  }

  lemma FinishLetsGo(lib: Library, s: System, step: Protocol.Step)
    requires Possible(s, step) && step.Finish?
    ensures !PcOf(Next(lib, s, step), step.worker).HoldsCopy()
  {
  }

  lemma HeldKept(lib: Library, s: System, step: Protocol.Step, w: WorkerId)
    requires Inv(lib, s) && AttemptsHeld(s) && Possible(s, step) && PcOf(Next(lib, s, step), w).HoldsCopy()
    ensures CopyHeld(Next(lib, s, step), PcOf(Next(lib, s, step), w).outbox)
  {
    hide Next, RowsOk, CallsOk, CallersOk, IdentityOk, SettledOk, TokensApart, CopiesOk, CopiesApart, OutcomesOk;
    if step.Claim? && step.worker == w {
      KeyedRows(s);
      ClaimHandsOut(lib, s, step);
    } else {
      CopyTokenFrom(lib, s, step, w);
      StepOrderly(lib, s, step);
      var outbox := PcOf(s, w).outbox;
      assert CopyHeld(s, s.workers[w].outbox);
      if s.rows[outbox.id] == outbox && Next(lib, s, step).rows[outbox.id] != outbox {
        OthersCannotEnd(lib, s, step, w);
      }
    }
  }

  lemma {:induction false} RunHeld(lib: Library, s0: System, steps: seq<Protocol.Step>)
    requires Start(s0)
    ensures AttemptsHeld(Run(lib, s0, steps))
  {
    if steps == [] { return; }
    hide Start, Inv, Next, Possible;
    var prefix := steps[..|steps| - 1];
    var s, step := Run(lib, s0, prefix), steps[|steps| - 1];
    RunInv(lib, s0, prefix);
    RunHeld(lib, s0, prefix);
    if Possible(s, step) {
      forall w <- Next(lib, s, step).workers | Next(lib, s, step).workers[w].HoldsCopy()
        ensures CopyHeld(Next(lib, s, step), Next(lib, s, step).workers[w].outbox)
      {
        HeldKept(lib, s, step, w);
      }
    }
  }

  /**
   * A worker loses an attempt only to a clock: as long as no process has read a time past its
   * lease, the stored row is the very copy it holds, whatever anyone did.
   */
  lemma AttemptKeptUntilExpiry(lib: Library, s0: System, steps: seq<Protocol.Step>, w: WorkerId)
    requires Start(s0) && PcOf(Run(lib, s0, steps), w).HoldsCopy()
    ensures var s := Run(lib, s0, steps);
            var outbox := PcOf(s, w).outbox;
            && outbox.id in s.rows && outbox.leaseUntil.Some?
            && (s.latest < outbox.leaseUntil.value ==> s.rows[outbox.id] == outbox)
  {
    hide Start, Run;
    RunHeld(lib, s0, steps);
    assert CopyHeld(Run(lib, s0, steps), Run(lib, s0, steps).workers[w].outbox);
  }

  // ---------- Calls ----------

  /**
   * Calls keep their times: a worker calls its provider at most `latency` after the reading of its
   * claim, and while a call is in flight no process, whose clock is at most `skew` ahead, reads more
   * than the 30 s timeout past the call.
   */
  ghost predicate CallsTimely(lib: Library, s0: System, steps: seq<Protocol.Step>, latency: Duration, skew: Duration) {
    steps != [] ==>
      var s := Run(lib, s0, steps[..|steps| - 1]);
      var step := steps[|steps| - 1];
      && CallsTimely(lib, s0, steps[..|steps| - 1], latency, skew)
      && (Possible(s, step) ==> StepTimely(s, step, latency, skew))
  }

  predicate StepTimely(s: System, step: Protocol.Step, latency: Duration, skew: Duration)
    requires Possible(s, step)
  {
    && (step.Call? && PcOf(s, step.worker).outbox.leaseUntil.Some?
        ==> step.now <= PcOf(s, step.worker).outbox.leaseUntil.value - LEASE + latency)
    && (ReadingOf(step).Some? ==>
          forall w <- s.workers :: s.workers[w].Calling? ==> ReadingOf(step).value <= s.workers[w].since + ATTEMPT + skew)
  }

  /** The latest reading is within the timeout of every call in flight, and the call within the latency of its claim. */
  ghost predicate CallsFresh(s: System, latency: Duration, skew: Duration) {
    forall w <- s.workers :: s.workers[w].Calling? ==> CallFresh(s, s.workers[w].outbox, s.workers[w].since, latency, skew)
  }

  predicate CallFresh(s: System, outbox: Row, since: Instant, latency: Duration, skew: Duration) {
    && s.latest <= since + ATTEMPT + skew
    && (outbox.leaseUntil.Some? ==> since <= outbox.leaseUntil.value - LEASE + latency)
  }

  lemma CallBegins(lib: Library, s: System, step: Protocol.Step, w: WorkerId)
    requires Possible(s, step) && PcOf(Next(lib, s, step), w).Calling?
    ensures if step.Call? && step.worker == w
            then && PcOf(Next(lib, s, step), w) == Calling(PcOf(s, w).envelope, PcOf(s, w).outbox, step.now)
                 && Next(lib, s, step).latest == Max(s.latest, step.now)
            else w in s.workers && PcOf(Next(lib, s, step), w) == PcOf(s, w)
  {
    if WorkerOf(step) != Some(w) { OthersStay(lib, s, step, w); }
  }

  lemma FreshKept(lib: Library, s: System, step: Protocol.Step, latency: Duration, skew: Duration)
    requires Possible(s, step) && skew >= 0 && CallsFresh(s, latency, skew) && StepTimely(s, step, latency, skew)
    requires ReadingOf(step).Some? ==> s.latest <= ReadingOf(step).value + skew
    ensures CallsFresh(Next(lib, s, step), latency, skew)
  {
    LatestAfter(lib, s, step);
    forall w <- Next(lib, s, step).workers | Next(lib, s, step).workers[w].Calling?
      ensures var pc := Next(lib, s, step).workers[w]; CallFresh(Next(lib, s, step), pc.outbox, pc.since, latency, skew)
    {
      CallBegins(lib, s, step, w);
    }
    hide Next, Possible;
  }

  lemma {:induction false} RunFresh(lib: Library, s0: System, steps: seq<Protocol.Step>, latency: Duration, skew: Duration)
    requires Start(s0) && skew >= 0 && ClocksAgree(lib, s0, steps, skew) && CallsTimely(lib, s0, steps, latency, skew)
    ensures CallsFresh(Run(lib, s0, steps), latency, skew)
  {
    if steps == [] { return; }
    hide Start, Next, Possible, StepTimely, CallsFresh;
    var prefix := steps[..|steps| - 1];
    var s, step := Run(lib, s0, prefix), steps[|steps| - 1];
    RunFresh(lib, s0, prefix, latency, skew);
    if Possible(s, step) { FreshKept(lib, s, step, latency, skew); }
  }

  /**
   * With a latency and a skew that together stay below lease less timeout (30 s), every call in
   * flight is inside its own unexpired lease: the stored row is still the caller's copy.
   */
  lemma CallInsideLease(lib: Library, s0: System, steps: seq<Protocol.Step>, latency: Duration, skew: Duration, w: WorkerId)
    requires Start(s0) && skew >= 0 && ClocksAgree(lib, s0, steps, skew) && CallsTimely(lib, s0, steps, latency, skew)
    requires latency + skew < LEASE - ATTEMPT && PcOf(Run(lib, s0, steps), w).Calling?
    ensures var s := Run(lib, s0, steps);
            var outbox := PcOf(s, w).outbox;
            && outbox.leaseUntil.Some? && s.latest < outbox.leaseUntil.value
            && outbox.id in s.rows && s.rows[outbox.id] == outbox
  {
    hide Start, Run, ClocksAgree, CallsTimely;
    RunFresh(lib, s0, steps, latency, skew);
    AttemptKeptUntilExpiry(lib, s0, steps, w);
    assert w in Run(lib, s0, steps).workers;
  }

  /** Then two provider calls for one row are never in flight together. */
  lemma CallsNeverOverlap(lib: Library, s0: System, steps: seq<Protocol.Step>, latency: Duration, skew: Duration,
                          v: WorkerId, w: WorkerId)
    requires Start(s0) && skew >= 0 && ClocksAgree(lib, s0, steps, skew) && CallsTimely(lib, s0, steps, latency, skew)
    requires latency + skew < LEASE - ATTEMPT && v != w
    requires PcOf(Run(lib, s0, steps), v).Calling? && PcOf(Run(lib, s0, steps), w).Calling?
    ensures PcOf(Run(lib, s0, steps), v).outbox.id != PcOf(Run(lib, s0, steps), w).outbox.id
  {
    hide Start, Run, ClocksAgree, CallsTimely, RowsOk, CopiesOk, CallsOk, CallersOk, IdentityOk, SettledOk, TokensApart, OutcomesOk;
    CallInsideLease(lib, s0, steps, latency, skew, v);
    CallInsideLease(lib, s0, steps, latency, skew, w);
    RunInv(lib, s0, steps);
    var s := Run(lib, s0, steps);
    assert v in s.workers && w in s.workers;
  }
}
