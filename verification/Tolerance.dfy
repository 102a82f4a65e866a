/**
 * How much disagreement of clocks the time constants bear, exactly: each bound of Timing and
 * InFlight is met by a run of one row that breaks the promise as soon as the bound is passed.
 */
module Tolerance {
  import opened Base
  import opened Messages
  import opened Outbox
  import opened Submission
  import opened Repository
  import opened RowMachine
  import opened Protocol
  import opened Theorems
  import opened Timing
  import opened Progress
  import opened InFlight

  // ---------- Runs of one row ----------

  const ROW: Id := 1

  /** One row, stored under its id. */
  ghost predicate Single(s: System) {
    s.rows.Keys == {ROW} && ROW in s.rows && s.rows[ROW].id == ROW && ROW in s.history
  }

  /** A run that has just accepted one message, without key, deadline or retry limit. */
  lemma Accepted(lib: Library, now: Instant) returns (s0: System, submit: Protocol.Step)
    ensures Start(s0) && s0.latest == 0 && Possible(s0, submit) && ReadingOf(submit) == Some(now) && !submit.Call?
    ensures var s := Next(lib, s0, submit);
            && Single(s) && NewRow(s.rows[ROW], now) && s.history[ROW] == [Entry(RowOp.Insert(now), s.rows[ROW])]
            && s.rows[ROW].nextRetryAt.None? && s.rows[ROW].retryDeadline.None? && s.rows[ROW].maxRetries == -1
            && s.workers == map[] && s.tokens == {} && s.latest == Max(0, now)
    ensures s0.workers == map[]
  {
    s0 := System(map[], map[], {}, map[], [], {}, [], [], 0);
    submit := Step.Submit(BaleMessage("", "", []), Options(-1, None, ""), now, 0, ROW, now);
    assert Canonicalise(lib, submit.message, submit.options).Some?;
  }

  lemma ReserveOne(lib: Library, s: System, now: Instant) returns (step: Protocol.Step)
    requires Single(s) && Due(s.rows[ROW], now) && !Exhausted(s.rows[ROW], now)
    ensures Possible(s, step) && step.Reserve? && ReadingOf(step) == Some(now)
    ensures var s' := Next(lib, s, step);
            var row := ReserveRow(s.rows[ROW], now, RESERVATION);
            && Single(s') && s'.rows[ROW] == row && s'.workers == s.workers && s'.tokens == s.tokens
            && s'.latest == Max(s.latest, now)
            && (row != s.rows[ROW] ==> s'.history[ROW] == s.history[ROW] + [Entry(RowOp.Reserve(now), row)])
  {
    step := Step.Reserve(s.rows[ROW].channel, now, s.rows.Keys - {ROW});
    ReserveStep(lib, s, ROW, now);
    hide Batch, AfterReserve, Due, Exhausted;
  }

  lemma ClaimOne(lib: Library, s: System, now: Instant, w: WorkerId, token: Token) returns (step: Protocol.Step)
    requires Single(s) && Claimable(s.rows[ROW], now) && !Exhausted(s.rows[ROW], now)
    requires w !in s.workers && token !in s.tokens && token != NO_TOKEN
    ensures Possible(s, step) && step.Claim? && ReadingOf(step) == Some(now)
    ensures var s' := Next(lib, s, step);
            var row := ClaimRow(s.rows[ROW], now, LEASE, token);
            && Single(s') && s'.rows[ROW] == row && s'.workers == s.workers[w := Pc.Claimed(Notice(ROW), row)]
            && s'.tokens == s.tokens + {token} && s'.latest == Max(s.latest, now)
            && s'.history[ROW] == s.history[ROW] + [Entry(RowOp.Claim(now, token), row)]
  {
    step := Step.Claim(w, s.rows[ROW].channel, Notice(ROW), now, token, false, false);
    ClaimStep(lib, s, ROW, now, w, token);
    hide Exhausted;
  }

  /** One more step of a run whose clocks and calls keep their times. */
  lemma Further(lib: Library, s0: System, steps: seq<Protocol.Step>, step: Protocol.Step, latency: Duration, skew: Duration)
    requires ClocksAgree(lib, s0, steps, skew) && Possible(Run(lib, s0, steps), step)
    requires ReadingOf(step).Some? ==> Run(lib, s0, steps).latest <= ReadingOf(step).value + skew
    ensures ClocksAgree(lib, s0, steps + [step], skew)
    ensures Run(lib, s0, steps + [step]) == Next(lib, Run(lib, s0, steps), step)
    ensures CallsTimely(lib, s0, steps, latency, skew) && StepTimely(Run(lib, s0, steps), step, latency, skew)
            ==> CallsTimely(lib, s0, steps + [step], latency, skew)
  {
    hide Next, Possible, StepTimely;
    assert (steps + [step])[..|steps + [step]| - 1] == steps;
  }

  // ---------- Reservations ----------

  /** Two reservations with no completion between them, less than 10 s apart. */
  predicate TooClose(h: History, i: nat, j: nat) {
    && i < j < |h| && TakesReservation(h, i) && TakesReservation(h, j) && (forall m :: i < m < j ==> !h[m].op.Finish?)
    && h[j].op.now < h[i].op.now + 10 * SECOND
  }

  /** In every run whose clocks agree within `skew` dispatch reservations are spaced. */
  ghost predicate SpacingHolds(lib: Library, skew: Duration) {
    forall s0: System, steps: seq<Protocol.Step>, id: Id, i: nat, j: nat ::
      Start(s0) && ClocksAgree(lib, s0, steps, skew) && id in Run(lib, s0, steps).rows
      ==> !TooClose(RecordOf(lib, s0, steps, id), i, j)
  }

  /** A claim read `excess` more than 50 s behind a reservation: what the row goes through. */
  lemma LaggingClaim(row: Row, start: Instant, excess: Duration)
    requires NewRow(row, start) && row.nextRetryAt.None? && row.retryDeadline.None? && row.maxRetries == -1
    requires 0 < excess <= RESERVATION
    ensures var reserved := ReserveRow(row, start, RESERVATION);
            var claimedAt := start - (LEASE - RESERVATION) - excess;
            var claimed := ClaimRow(reserved, claimedAt, LEASE, 1);
            var again := start + RESERVATION - excess;
            && Due(row, start) && !Exhausted(row, start) && reserved != row && reserved.state == Pending
            && Claimable(reserved, claimedAt) && !Exhausted(reserved, claimedAt) && claimed.state == Sending
            && Due(claimed, again) && !Exhausted(claimed, again) && ReserveRow(claimed, again, RESERVATION).state == Failed
  {
  }

  lemma SpacingBreaks(lib: Library, skew: Duration) returns (s0: System, steps: seq<Protocol.Step>)
    requires skew > LEASE - RESERVATION
    ensures Start(s0) && ClocksAgree(lib, s0, steps, skew) && ROW in Run(lib, s0, steps).rows
    ensures TooClose(RecordOf(lib, s0, steps, ROW), 1, 3)
  {
    hide Start, Next, Possible, NewRow, Due, Exhausted, Claimable, ReserveRow, ClaimRow, StepTimely, CallsTimely;
    var excess := Min(skew - (LEASE - RESERVATION), RESERVATION);
    var start := 100 * SECOND;
    var z, a := Accepted(lib, start);
    s0 := z;
    var s1 := Next(lib, s0, a);
    LaggingClaim(s1.rows[ROW], start, excess);
    var b := ReserveOne(lib, s1, start);
    var s2 := Next(lib, s1, b);
    var c := ClaimOne(lib, s2, start - (LEASE - RESERVATION) - excess, 1, 1);
    var s3 := Next(lib, s2, c);
    var d := ReserveOne(lib, s3, start + RESERVATION - excess);
    hide ClocksAgree, Run;
    FirstStep(lib, s0, a, 0, skew);
    Further(lib, s0, [a], b, 0, skew);
    Further(lib, s0, [a] + [b], c, 0, skew);
    Further(lib, s0, [a] + [b] + [c], d, 0, skew);
    steps := [a] + [b] + [c] + [d];
  }

  lemma FirstStep(lib: Library, s0: System, step: Protocol.Step, latency: Duration, skew: Duration)
    requires Possible(s0, step) && ReadingOf(step).Some? && s0.latest <= ReadingOf(step).value + skew
    requires s0.workers == map[] && !step.Call?
    ensures ClocksAgree(lib, s0, [step], skew) && CallsTimely(lib, s0, [step], latency, skew)
    ensures Run(lib, s0, [step]) == Next(lib, s0, step)
  {
    assert [] + [step] == [step];
    assert Run(lib, s0, []) == s0;
    Further(lib, s0, [], step, latency, skew);
  }

  /** The 10 s spacing of reservations holds in all runs exactly when clocks agree within 50 s. */
  lemma SpacingTolerance(lib: Library, skew: Duration)
    ensures SpacingHolds(lib, skew) <==> skew <= 50 * SECOND
  {
    hide Start, Run, ClocksAgree;
    if skew <= LEASE - RESERVATION {
      forall s0: System, steps: seq<Protocol.Step>, id: Id, i: nat, j: nat
        | Start(s0) && ClocksAgree(lib, s0, steps, skew) && id in Run(lib, s0, steps).rows
        ensures !TooClose(RecordOf(lib, s0, steps, id), i, j)
      {
        if TooClose(RecordOf(lib, s0, steps, id), i, j) { DispatchesSpaced(lib, s0, steps, skew, id, i, j); }
      }
    } else {
      var s0, steps := SpacingBreaks(lib, skew);
    }
  }

  // ---------- Calls in flight ----------

  /** Two workers are calling the provider for one row. */
  predicate CallsCollide(s: System, v: WorkerId, w: WorkerId) {
    v != w && PcOf(s, v).Calling? && PcOf(s, w).Calling? && PcOf(s, v).outbox.id == PcOf(s, w).outbox.id
  }

  /** In every run that keeps the latency and the skew, no two calls for one row are in flight together. */
  ghost predicate CallsStayApart(lib: Library, latency: Duration, skew: Duration) {
    forall s0: System, steps: seq<Protocol.Step>, v: WorkerId, w: WorkerId ::
      Start(s0) && ClocksAgree(lib, s0, steps, skew) && CallsTimely(lib, s0, steps, latency, skew)
      ==> !CallsCollide(Run(lib, s0, steps), v, w)
  }

  /** A row claimed at 0 whose lease is recovered when it ends and claimed again at once. */
  lemma ClaimedTwice(row: Row)
    requires NewRow(row, 0) && row.nextRetryAt.None? && row.retryDeadline.None? && row.maxRetries == -1
    ensures var claimed := ClaimRow(row, 0, LEASE, 1);
            var recovered := ReserveRow(claimed, LEASE, RESERVATION);
            && Claimable(row, 0) && !Exhausted(row, 0) && claimed.id == row.id && claimed.leaseUntil == Some(LEASE)
            && Due(claimed, LEASE) && !Exhausted(claimed, LEASE)
            && Claimable(recovered, LEASE) && !Exhausted(recovered, LEASE)
            && ClaimRow(recovered, LEASE, LEASE, 2).leaseUntil == Some(LEASE + LEASE) && recovered.id == row.id
            && ClaimRow(recovered, LEASE, LEASE, 2).id == row.id
  {
  }

  lemma CallOne(lib: Library, s: System, w: WorkerId, now: Instant)
    requires Single(s) && PcOf(s, w).Claimed?
    ensures var step := Step.Call(w, now);
            && Possible(s, step) && Single(Next(lib, s, step)) && Next(lib, s, step).rows == s.rows
            && Next(lib, s, step).tokens == s.tokens && Next(lib, s, step).latest == Max(s.latest, now)
            && Next(lib, s, step).workers == s.workers[w := Calling(PcOf(s, w).envelope, PcOf(s, w).outbox, now)]
  {
  }

  lemma CallsOverlap(lib: Library, latency: Duration, skew: Duration) returns (s0: System, steps: seq<Protocol.Step>)
    requires latency >= 0 && skew >= 0 && latency + skew >= LEASE - ATTEMPT
    ensures Start(s0) && ClocksAgree(lib, s0, steps, skew) && CallsTimely(lib, s0, steps, latency, skew)
    ensures CallsCollide(Run(lib, s0, steps), 1, 2)
  {
    hide Start, Next, Possible, NewRow, Due, Exhausted, Claimable, ReserveRow, ClaimRow;
    var called := Min(latency, LEASE);
    var z, a := Accepted(lib, 0);
    s0 := z;
    var s1 := Next(lib, s0, a);
    ClaimedTwice(s1.rows[ROW]);
    var b := ClaimOne(lib, s1, 0, 1, 1);
    var s2 := Next(lib, s1, b);
    CallOne(lib, s2, 1, called);
    var c := Step.Call(1, called);
    var s3 := Next(lib, s2, c);
    var d := ReserveOne(lib, s3, LEASE);
    var s4 := Next(lib, s3, d);
    var e := ClaimOne(lib, s4, LEASE, 2, 2);
    var s5 := Next(lib, s4, e);
    CallOne(lib, s5, 2, LEASE);
    var f := Step.Call(2, LEASE);
    hide ClocksAgree, Run, CallsTimely;
    FirstStep(lib, s0, a, latency, skew);
    Further(lib, s0, [a], b, latency, skew);
    Further(lib, s0, [a] + [b], c, latency, skew);
    Further(lib, s0, [a] + [b] + [c], d, latency, skew);
    Further(lib, s0, [a] + [b] + [c] + [d], e, latency, skew);
    Further(lib, s0, [a] + [b] + [c] + [d] + [e], f, latency, skew);
    steps := [a] + [b] + [c] + [d] + [e] + [f];
  }

  /**
   * Provider calls for one row never run side by side exactly when the delay from claim to call
   * and the disagreement of clocks together stay below lease less timeout.
   */
  lemma CallTolerance(lib: Library, latency: Duration, skew: Duration)
    requires latency >= 0 && skew >= 0
    ensures CallsStayApart(lib, latency, skew) <==> latency + skew < 30 * SECOND
  {
    hide Start, Run, ClocksAgree, CallsTimely;
    if latency + skew < LEASE - ATTEMPT {
      forall s0: System, steps: seq<Protocol.Step>, v: WorkerId, w: WorkerId
        | Start(s0) && ClocksAgree(lib, s0, steps, skew) && CallsTimely(lib, s0, steps, latency, skew)
        ensures !CallsCollide(Run(lib, s0, steps), v, w)
      {
        if CallsCollide(Run(lib, s0, steps), v, w) { CallsNeverOverlap(lib, s0, steps, latency, skew, v, w); }
      }
    } else {
      var s0, steps := CallsOverlap(lib, latency, skew);
    }
  }
}
