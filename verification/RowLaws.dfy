/** What every history of a row keeps: accounting, budget, pacing, lease windows, due times. */
module RowLaws {
  import opened Base
  import opened Outbox
  import opened Retry
  import opened RowMachine

  // ---------- Invariants of one row ----------

  /** Holds of every row, migrated or not. */
  predicate RowInv(row: Row) {
    && (row.state == Sending ==> row.leaseUntil.Some?)
    && (row.state == Sending || row.state == Failed || row.state == Sent ==> row.attempts == row.retryCount + 1)
  }

  /** Holds of every row this code inserted. */
  predicate OwnInv(row: Row) {
    && RowInv(row)
    && row.maxRetries >= -1 && row.attempts >= 0
    && row.retryCount == Max(row.attempts - 1, 0)
    && (row.state == Pending ==> row.attempts == 0)
    && (row.state == Sending || row.state == Failed || row.state == Sent ==> row.attempts >= 1)
    && (row.maxRetries >= 0 ==> row.attempts <= row.maxRetries + 1)
    && (row.maxRetries >= 0 && row.state == Failed ==> row.attempts <= row.maxRetries)
    && (row.state == Sending <==> row.leaseToken != NO_TOKEN)
    && (row.state == Sending <==> row.leaseUntil.Some?)
    && (row.state == Sent <==> row.sentAt.Some?)
    && (row.state == Sent ==> row.lastError == "")
    && (Terminal(row) ==> row.nextRetryAt.None? && row.dispatchAfter.None?)
    && (row.state == Failed ==> row.nextRetryAt.Some?)
  }

  /** Every gate in front of a row lies within the protocol's waits of the latest reading. */
  predicate Bounded(row: Row, latest: Instant) {
    && (row.dispatchAfter.Some? ==> row.dispatchAfter.value <= latest + RESERVATION)
    && (row.state == Sending && row.leaseUntil.Some? ==> row.leaseUntil.value <= latest + LEASE)
    && (row.nextRetryAt.Some? ==> row.nextRetryAt.value <= Max(row.eligibleAt, latest + 990 * SECOND))
  }

  /** A step keeps the invariants, the submitted columns, and the bounds up to its own reading. */
  lemma StepKeeps(row: Row, op: RowOp, latest: Instant)
    requires Enabled(row, op) && RowInv(row)
    ensures RowInv(Step(row, op)) && SameSubmission(Step(row, op), row)
    ensures OwnInv(row) ==> OwnInv(Step(row, op))
    ensures Bounded(row, latest) && Reading(op) <= latest ==> Bounded(Step(row, op), latest)
  {
    StepBounds(row, op, latest);
    hide Bounded, DurationJitter, RetryDelay;
  }

  lemma StepBounds(row: Row, op: RowOp, latest: Instant)
    requires Enabled(row, op) && RowInv(row)
    ensures Bounded(row, latest) && Reading(op) <= latest ==> Bounded(Step(row, op), latest)
  {
    if op.Finish? && !op.outcome.Delivered? { JitterRange(row.retryCount + 1, op.draw); }
    hide DurationJitter, RetryDelay;
  }

  /** The invariants hold at the end of every history. */
  lemma {:induction false} HistoryInv(h: History)
    requires Valid(h)
    ensures RowInv(Last(h)) && SameSubmission(Last(h), h[0].row)
    ensures Own(h) ==> OwnInv(Last(h))
  {
    if |h| > 1 {
      Peel(h);
      HistoryInv(Before(h));
      StepKeeps(Last(Before(h)), h[|h| - 1].op, 0);
    }
  }

  /** Every gate is at most the protocol's longest wait past the latest reading of the history. */
  lemma {:induction false} HistoryBounded(h: History, latest: Instant)
    requires Valid(h) && forall i :: 0 <= i < |h| ==> Reading(h[i].op) <= latest
    ensures Bounded(Last(h), latest)
  {
    if |h| > 1 {
      Peel(h);
      assert forall i :: 0 <= i < |Before(h)| ==> Before(h)[i] == h[i];
      HistoryBounded(Before(h), latest);
      HistoryInv(Before(h));
      StepKeeps(Last(Before(h)), h[|h| - 1].op, latest);
    }
  }

  // ---------- Accounting ----------

  /**
   * Conservation: the attempts column counts the claims, and every attempt is a committed
   * completion, a recovered lease, or the one in flight.
   */
  lemma {:induction false} Conservation(h: History)
    requires Valid(h)
    ensures Last(h).attempts == h[0].row.attempts + Attempts(h)
    ensures Attempts(h) + (if h[0].row.state == Sending then 1 else 0)
         == Completions(h) + Recoveries(h) + (if Last(h).state == Sending then 1 else 0)
  {
    if |h| > 1 {
      Peel(h);
      Conservation(Before(h));
    } else {
      assert Before(h) == [];
    }
  }

  /** Budget: with a retry limit m a row is claimed at most m + 1 times, whatever clocks say. */
  lemma {:induction false} Budget(h: History)
    requires Valid(h) && h[0].row.maxRetries >= 0
    ensures Last(h).attempts <= Max(h[0].row.maxRetries + 1, h[0].row.attempts)
    ensures Own(h) ==> Attempts(h) <= h[0].row.maxRetries + 1
  {
    Conservation(h);
    HistoryInv(h);
    if |h| > 1 {
      Peel(h);
      Budget(Before(h));
      HistoryInv(Before(h));
    }
  }

  /** How many state changes a row with a retry limit has left. */
  function Fuel(row: Row): int {
    if Terminal(row) then 0
    else 2 * (row.maxRetries + 1 - row.attempts) + if row.state == Sending then 1 else 0
  }

  /** Termination: each change of state uses up fuel, and no other step adds any. */
  lemma FuelDecreases(row: Row, op: RowOp)
    requires OwnInv(row) && row.maxRetries >= 0 && Enabled(row, op)
    ensures 0 <= Fuel(Step(row, op)) <= Fuel(row)
    ensures Step(row, op).state != row.state ==> Fuel(Step(row, op)) < Fuel(row)
    ensures Step(row, op).state == row.state ==> op.Reserve? && Fuel(Step(row, op)) == Fuel(row)
  {
    StepKeeps(row, op, 0);
  }

  /** So a row changes state at most 2(m + 1) times in any history. */
  lemma {:induction false} StateChangesBounded(h: History)
    requires Valid(h) && Own(h) && h[0].row.maxRetries >= 0
    ensures StateChanges(h) + Fuel(Last(h)) <= 2 * (h[0].row.maxRetries + 1)
    ensures Fuel(Last(h)) >= 0
  {
    HistoryInv(h);
    if |h| > 1 {
      Peel(h);
      StateChangesBounded(Before(h));
      HistoryInv(Before(h));
      FuelDecreases(Last(Before(h)), h[|h| - 1].op);
    }
  }

  /** Sent and Dead are final: a history never goes past them. */
  lemma TerminalIsLast(h: History, i: nat)
    requires Valid(h) && i < |h| && Terminal(h[i].row)
    ensures i == |h| - 1
  {
    if i + 1 < |h| {
      NotTerminalBefore(h, i + 1);
    }
  }

  lemma NotTerminalBefore(h: History, i: nat)
    requires Valid(h) && 0 < i < |h|
    ensures !Terminal(h[i - 1].row)
  {
    assert StepOk(h, i);
  }

  /** A row that did not start as Sent is Sent exactly by a completion whose attempt the provider took, and says when. */
  lemma SentByDelivery(h: History)
    requires Valid(h) && h[0].row.state != Sent
    ensures Last(h).state == Sent <==> h[|h| - 1].op.Finish? && h[|h| - 1].op.outcome == Delivered
    ensures Last(h).state == Sent ==> Last(h).sentAt == Some(h[|h| - 1].op.now)
  {
    if |h| > 1 { Peel(h); }
  }

  /**
   * The worker and the repository agree on the end of a row's life: a failed completion is final
   * exactly when the repository would refuse another attempt at that instant.
   */
  lemma WorkerAgreesWithRepository(row: Row, op: RowOp)
    requires OwnInv(row) && Enabled(row, op) && op.Finish?
    ensures if op.outcome.Delivered? then Step(row, op).state == Sent
            else Step(row, op).state == if Exhausted(row, op.now) then Dead else Failed
  {
    RetryDelayRange(row.retryCount + 1);
  }

  /** What the error column says: the provider's error, or why the service gave up or took the row back. */
  lemma LastErrorTells(h: History)
    requires Valid(h) && |h| > 1
    ensures var before, e := h[|h| - 2].row, h[|h| - 1];
            && (e.op.Finish? && e.op.outcome.Rejected? ==> e.row.lastError == e.op.outcome.error)
            && (e.op.Finish? && e.op.outcome.Undecodable? ==> e.row.lastError == "invalid stored message")
            && (!e.op.Finish? && e.row.state == Dead ==> e.row.lastError == "delivery retry budget or age exhausted")
            && (e.op.Reserve? && e.row.state == Failed && before.state == Sending
                ==> e.row.lastError == "previous delivery outcome unknown")
            && (!e.op.Finish? && e.row.state != Dead && before.state != Sending ==> e.row.lastError == before.lastError)
  {
    assert StepOk(h, |h| - 1);
  }

  /** The change right after the start of an attempt is what ends it. */
  lemma AttemptEnds(h: History, i: nat)
    requires Valid(h) && i + 1 < |h| && StartsAttempt(h, i)
    ensures h[i].row.leaseToken == h[i].op.token && h[i].row.leaseUntil == Some(h[i].op.now + LEASE)
    ensures h[i + 1].op.Finish? || h[i + 1].op.Reserve?
    ensures h[i + 1].op.Finish? ==> h[i + 1].op.token == h[i].op.token && h[i + 1].op.now < h[i].op.now + LEASE
    ensures h[i + 1].op.Reserve? ==> h[i].op.now + LEASE <= h[i + 1].op.now
  {
    StepOf(h, i);
    assert StepOk(h, i + 1);
  }

  lemma StepOf(h: History, i: nat)
    requires Valid(h) && i < |h|
    ensures h[i].op.Claim? || h[i].op.Reserve? || h[i].op.Finish? ==> i > 0 && StepOk(h, i)
  {
    if i > 0 { assert StepOk(h, i); }
  }

  /** Each completion closes the attempt opened one entry earlier, under that attempt's token. */
  lemma CompletionClosesAttempt(h: History, j: nat)
    requires Valid(h) && Own(h) && j < |h| && h[j].op.Finish?
    ensures j >= 2 && StartsAttempt(h, j - 1) && h[j - 1].op.token == h[j].op.token
  {
    StepOf(h, j);
    SendingFromClaim(h, j - 1);
  }

  lemma SendingFromClaim(h: History, i: nat)
    requires Valid(h) && Own(h) && i < |h| && h[i].row.state == Sending
    ensures i >= 1 && StartsAttempt(h, i) && h[i].row.leaseToken == h[i].op.token
  {
    if i > 0 {
      assert StepOk(h, i);
    }
  }

  /**
   * A failed attempt that is not the last leaves its row closed for the wait of that attempt, 2^n s
   * or 900 s give or take a tenth, and due exactly from then on: nothing else holds the row back.
   */
  lemma FailureWaits(h: History, j: nat)
    requires Valid(h) && j < |h| && h[j].op.Finish? && h[j].row.state == Failed
    ensures var row := h[j].row;
            && row.nextRetryAt.Some? && WaitFits(row.attempts, row.nextRetryAt.value - h[j].op.now)
            && (forall now :: Due(row, now) <==> row.nextRetryAt.value <= now)
            && row.leaseToken == NO_TOKEN && row.leaseUntil.None? && row.dispatchAfter.None?
            && row.lastError == if h[j].op.outcome.Rejected? then h[j].op.outcome.error else "invalid stored message"
  {
    StepOf(h, j);
    ValidPrefix(h, j);
    HistoryInv(h[..j]);
    assert Last(h[..j]) == h[j - 1].row;
    var op := h[j].op;
    if !op.outcome.Delivered? { FailureDecided(h[j - 1].row, op.outcome, op.now, op.draw); }
    hide WaitFits, DurationJitter, RetryDelay, Valid;
  }

  // ---------- Lease windows ----------

  /** End of the window of the attempt opened at i: its completion, or the end of its lease. */
  function WindowEnd(h: History, i: nat): Instant
    requires i < |h| && h[i].op.Claim?
  {
    if i + 1 < |h| && h[i + 1].op.Finish?
    then Min(h[i + 1].op.now, h[i].op.now + LEASE)
    else h[i].op.now + LEASE
  }

  /** Entry k leaves the row unclaimable before `until`, or is a claim no earlier than that. */
  predicate ClosedAt(h: History, k: nat, until: Instant)
    requires k < |h|
  {
    var row := h[k].row;
    && row.state != Pending
    && (row.state == Sending ==> h[k].op.Claim? && until <= h[k].op.now)
    && (row.state == Failed ==> row.nextRetryAt.Some? && until <= row.nextRetryAt.value)
  }

  /** A step never opens a row before an instant it was closed until, nor before its attempt's end. */
  lemma StaysClosed(row: Row, op: RowOp, claimed: Instant, until: Instant)
    requires RowInv(row) && Enabled(row, op)
    requires row.state == Sending ==> until <= claimed && row.leaseUntil == Some(claimed + LEASE)
    requires row.state == Sending && op.Finish? ==> claimed <= op.now
    requires row.nextRetryAt.Some? && row.state != Sending ==> until <= row.nextRetryAt.value
    requires row.state != Sending && row.nextRetryAt.None? && op.Claim? && !Exhausted(row, op.now) ==> until <= op.now
    ensures Step(row, op).state == Sending ==> op.Claim? && until <= op.now
    ensures Step(row, op).state == Failed && (row.state != Failed || row.nextRetryAt.Some?)
            ==> Step(row, op).nextRetryAt.Some? && until <= Step(row, op).nextRetryAt.value
    ensures Step(row, op).state == Pending ==> row.state == Pending && Step(row, op).nextRetryAt == row.nextRetryAt
  {
    if op.Finish? && !op.outcome.Delivered? { JitterRange(row.retryCount + 1, op.draw); }
  }

  /** Once closed until an instant, a row stays so, whatever attempts it makes from then on. */
  lemma {:induction false} ClosedUntil(h: History, i: nat, k: nat, until: Instant)
    requires Valid(h) && ForwardAttempts(h) && i <= k < |h| && ClosedAt(h, i, until)
    ensures ClosedAt(h, k, until)
    decreases k
  {
    if k > i {
      ClosedUntil(h, i, k - 1, until);
      assert StepOk(h, k);
      ValidPrefix(h, k);
      HistoryInv(h[..k]);
      assert Last(h[..k]) == h[k - 1].row;
      if h[k - 1].row.state == Sending { AttemptEnds(h, k - 1); }
      assert h[k].op.Finish? ==> Reading(h[k - 1].op) <= Reading(h[k].op);
      StaysClosed(h[k - 1].row, h[k].op, if h[k - 1].row.state == Sending then h[k - 1].op.now else 0, until);
    }
  }

  /** What ends an attempt closes the row until the attempt's window is over. */
  lemma ClosedByEnd(h: History, i: nat)
    requires Valid(h) && ForwardAttempts(h) && i + 1 < |h| && StartsAttempt(h, i)
    ensures ClosedAt(h, i + 1, WindowEnd(h, i))
  {
    AttemptEnds(h, i);
    assert StepOk(h, i + 1);
    var op := h[i + 1].op;
    if op.Finish? && !op.outcome.Delivered? { JitterRange(h[i].row.retryCount + 1, op.draw); }
  }

  /**
   * Windows of different attempts never overlap. The clocks of different processes need not
   * agree: it is enough that no worker's own clock runs backwards during its attempt.
   */
  lemma WindowsDisjoint(h: History, i: nat, j: nat)
    requires Valid(h) && ForwardAttempts(h) && i < j < |h| && StartsAttempt(h, i) && StartsAttempt(h, j)
    ensures WindowEnd(h, i) <= h[j].op.now
  {
    ClosedByEnd(h, i);
    ClosedUntil(h, i + 1, j, WindowEnd(h, i));
  }

  /** While an attempt runs, exactly one of its holder and the lease recovery may end it. */
  lemma HolderOrRecovery(h: History, now: Instant)
    requires Valid(h) && Own(h) && Last(h).state == Sending
    ensures HoldsLease(Last(h), Last(h).leaseToken, now) != Due(Last(h), now)
    ensures h[|h| - 1].op.Claim?
    ensures forall token :: HoldsLease(Last(h), token, now) ==> token == h[|h| - 1].op.token
  {
    HistoryInv(h);
    SendingFromClaim(h, |h| - 1);
  }

  // ---------- Pacing ----------

  /** Least gap between attempt n and attempt n + 1; n is negative only for rows that came with a negative count. */
  function Gap(n: int): Duration {
    if n < 0 then LEASE else Min(RetryDelay(n) - RetryDelay(n) / 10, LEASE)
  }

  /** Least time from the first attempt to attempt n. */
  function Pace(n: int): Duration {
    if n <= 1 then 0 else Pace(n - 1) + Gap(n - 1)
  }

  function FirstAttempt(h: History): (i: nat)
    requires Attempts(h) > 0
    ensures i < |h| && StartsAttempt(h, i)
  {
    if Attempts(Before(h)) > 0 then
      var i := FirstAttempt(Before(h));
      assert Before(h)[i] == h[i];
      i
    else |h| - 1
  }

  /** FirstAttempt really is the first: no earlier entry starts one. */
  lemma {:induction false} FirstAttemptIsFirst(h: History, k: nat)
    requires Attempts(h) > 0 && k < FirstAttempt(h)
    ensures !StartsAttempt(h, k)
  {
    assert Before(h)[k] == h[k];
    if Attempts(Before(h)) > 0 {
      FirstAttemptIsFirst(Before(h), k);
    } else {
      NoAttempts(Before(h), k);
    }
  }

  lemma {:induction false} NoAttempts(h: History, k: nat)
    requires Attempts(h) == 0 && k < |h|
    ensures !StartsAttempt(h, k)
  {
    if k < |h| - 1 {
      assert Before(h)[k] == h[k];
      NoAttempts(Before(h), k);
    }
  }

  /** Reading of the row's first attempt. */
  function FirstReading(h: History): Instant
    requires Attempts(h) > 0
  {
    h[FirstAttempt(h)].op.now
  }

  /** The row's next attempt is held back by the pace of the attempts made so far. */
  ghost predicate PacedBy(h: History, first: Instant)
    requires |h| > 0
  {
    var row := Last(h);
    && row.attempts >= 0
    && (row.state == Sending ==> h[|h| - 1].op.Claim? && row.leaseUntil == Some(h[|h| - 1].op.now + LEASE)
                                 && first + Pace(row.attempts) <= h[|h| - 1].op.now)
    && (row.state == Failed ==> row.nextRetryAt.Some? && first + Pace(row.attempts + 1) <= row.nextRetryAt.value)
  }

  lemma NothingAtStart(h: History)
    requires Valid(h) && |h| == 1
    ensures Attempts(h) == 0
  {
    assert Before(h) == [];
  }

  /** After an attempt a row waits out the gap, whoever ended the attempt. */
  lemma GapKept(row: Row, op: RowOp, claimed: Instant)
    requires RowInv(row) && row.state == Sending && Enabled(row, op) && row.leaseUntil == Some(claimed + LEASE)
    requires op.Finish? ==> claimed <= op.now
    ensures Step(row, op).state == Failed ==>
              && Step(row, op).attempts == row.attempts && Step(row, op).nextRetryAt.Some?
              && claimed + Gap(row.attempts) <= Step(row, op).nextRetryAt.value
    ensures Step(row, op).state != Sending
  {
    if op.Finish? && !op.outcome.Delivered? { JitterRange(row.retryCount + 1, op.draw); }
  }

  /**
   * Attempts are paced: whoever ends attempt n, the next one is claimed at least
   * min(0.9 retryDelay(n), 60 s) after attempt n was, whatever the clocks of others say.
   */
  lemma ConsecutiveGap(h: History, i: nat, j: nat)
    requires Valid(h) && ForwardAttempts(h) && i < j < |h| && StartsAttempt(h, i) && StartsAttempt(h, j)
    ensures h[i].op.now + Gap(h[i].row.attempts) <= h[j].op.now
  {
    AttemptEnds(h, i);
    ValidPrefix(h, i + 1);
    HistoryInv(h[..i + 1]);
    assert StepOk(h, i + 1);
    assert h[i + 1].op.Finish? ==> Reading(h[i].op) <= Reading(h[i + 1].op);
    GapKept(h[i].row, h[i + 1].op, h[i].op.now);
    ClosedUntil(h, i + 1, j, h[i].op.now + Gap(h[i].row.attempts));
  }

  /** One more step keeps the pace of a row that has been attempted. */
  lemma PacedStep(h: History, first: Instant)
    requires Valid(h) && |h| > 1 && ForwardAttempts(h) && PacedBy(Before(h), first)
    requires OwnInv(Last(Before(h))) && Last(Before(h)).attempts >= 1
    ensures PacedBy(h, first)
  {
    Peel(h);
    var row := Last(Before(h));
    var op := h[|h| - 1].op;
    if row.state == Sending {
      assert Before(h)[|h| - 2] == h[|h| - 2];
      assert op.Finish? ==> Reading(h[|h| - 2].op) <= Reading(op);
      GapKept(row, op, h[|h| - 2].op.now);
      assert Pace(row.attempts + 1) == Pace(row.attempts) + Gap(row.attempts);
      hide Step, Enabled, Valid, ForwardAttempts, OwnInv, Gap;
    }
  }

  lemma {:induction false} Paced(h: History)
    requires Valid(h) && Own(h) && ForwardAttempts(h) && Attempts(h) > 0
    ensures PacedBy(h, FirstReading(h))
  {
    if |h| == 1 { NothingAtStart(h); }
    Peel(h);
    HistoryInv(Before(h));
    Conservation(Before(h));
    if Attempts(Before(h)) > 0 {
      BeforeForward(h);
      Paced(Before(h));
      assert Before(h)[FirstAttempt(Before(h))] == h[FirstAttempt(Before(h))];
      PacedStep(h, FirstReading(Before(h)));
    } else {
      assert Pace(1) == 0;
    }
  }

  lemma BeforeForward(h: History)
    requires |h| > 1 && ForwardAttempts(h)
    ensures ForwardAttempts(Before(h))
  {
    forall i | 0 < i < |h| - 1 && Before(h)[i].op.Finish?
      ensures Reading(Before(h)[i - 1].op) <= Reading(Before(h)[i].op)
    {
      assert h[i].op.Finish?;
    }
  }

  /** Attempt n of a row comes at least Pace(n) after its first attempt. */
  lemma AttemptsPaced(h: History, j: nat)
    requires Valid(h) && Own(h) && ForwardAttempts(h) && j < |h| && StartsAttempt(h, j)
    ensures Attempts(h[..j + 1]) > 0
    ensures FirstReading(h[..j + 1]) + Pace(h[j].row.attempts) <= h[j].op.now
  {
    var p := h[..j + 1];
    ValidPrefix(h, j + 1);
    assert StartsAttempt(p, |p| - 1);
    Paced(p);
  }

  lemma GapRange(n: int)
    ensures 0 < Gap(n) <= LEASE && (n >= 7 ==> Gap(n) == LEASE)
  {
    if n >= 0 {
      RetryDelayRange(n);
      hide RetryDelay;
    }
  }

  /** From the eighth attempt on each gap is a full minute; the first seven span 113.4 s. */
  lemma {:induction false} PaceGrows(n: int)
    requires n >= 0
    ensures Pace(n) >= 0
    ensures n >= 7 ==> Pace(n) == 113_400_000_000 + (n - 7) * MINUTE
  {
    if n >= 1 {
      PaceGrows(n - 1);
      GapRange(n - 1);
      hide Gap;
      if n == 7 {
        PaceStart();
      }
    }
  }

  lemma PaceStart()
    ensures Pace(7) == 113_400_000_000
  {
    RetryDelayRange(1);
    RetryDelayRange(2);
    RetryDelayRange(3);
    RetryDelayRange(4);
    RetryDelayRange(5);
    RetryDelayRange(6);
    assert Gap(1) == 1_800_000_000 && Gap(2) == 3_600_000_000 && Gap(3) == 7_200_000_000;
    assert Gap(4) == 14_400_000_000 && Gap(5) == 28_800_000_000 && Gap(6) == 57_600_000_000;
    assert Pace(2) == Gap(1) && Pace(3) == Pace(2) + Gap(2) && Pace(4) == Pace(3) + Gap(3);
    assert Pace(5) == Pace(4) + Gap(4) && Pace(6) == Pace(5) + Gap(5) && Pace(7) == Pace(6) + Gap(6);
  }

  // ---------- The delivery window ----------

  /** No attempt is read earlier than the row's acceptance. */
  ghost predicate AttemptsAfterAcceptance(h: History) {
    forall k :: 0 <= k < |h| && StartsAttempt(h, k) ==> Reading(h[0].op) <= h[k].op.now
  }

  lemma {:induction false} ClosedUntilEligible(h: History, k: nat)
    requires Valid(h) && Own(h) && ForwardAttempts(h) && AttemptsAfterAcceptance(h) && k < |h|
    ensures h[k].row.eligibleAt == h[0].row.eligibleAt
    ensures h[k].row.state == Pending ==> h[k].row.nextRetryAt == h[0].row.nextRetryAt
    ensures h[k].row.state == Failed ==> h[k].row.nextRetryAt.Some? && h[0].row.eligibleAt <= h[k].row.nextRetryAt.value
    ensures h[k].row.state == Sending ==> h[k].op.Claim? && h[0].row.eligibleAt <= h[k].op.now
  {
    if k > 0 {
      ClosedUntilEligible(h, k - 1);
      assert StepOk(h, k);
      ValidPrefix(h, k);
      HistoryInv(h[..k]);
      assert Last(h[..k]) == h[k - 1].row;
      if h[k - 1].row.state == Sending { AttemptEnds(h, k - 1); }
      assert h[k].op.Finish? ==> Reading(h[k - 1].op) <= Reading(h[k].op);
      assert StartsAttempt(h, k) ==> Reading(h[0].op) <= h[k].op.now;
      StepKeeps(h[k - 1].row, h[k].op, 0);
      StaysClosed(h[k - 1].row, h[k].op, if h[k - 1].row.state == Sending then h[k - 1].op.now else 0, h[0].row.eligibleAt);
    }
  }

  /** An attempt starts before the frozen deadline, whatever any clock says. */
  lemma StartsBeforeDeadline(h: History, j: nat)
    requires Valid(h) && j < |h| && StartsAttempt(h, j) && h[0].row.retryDeadline.Some?
    ensures h[j].op.now < h[0].row.retryDeadline.value
  {
    StepOf(h, j);
    ValidPrefix(h, j);
    HistoryInv(h[..j]);
  }

  /** Attempts start in [eligible, deadline): both ends were fixed when the row was accepted. */
  lemma AttemptWindow(h: History, j: nat)
    requires Valid(h) && Own(h) && ForwardAttempts(h) && AttemptsAfterAcceptance(h)
    requires j < |h| && StartsAttempt(h, j)
    ensures h[0].row.eligibleAt <= h[j].op.now
    ensures h[0].row.retryDeadline.Some? ==> h[j].op.now < h[0].row.retryDeadline.value
  {
    ClosedUntilEligible(h, j);
    if h[0].row.retryDeadline.Some? { StartsBeforeDeadline(h, j); }
  }

  lemma AttemptWithinAge(h: History, age: Duration)
    requires Valid(h) && Own(h) && ForwardAttempts(h) && AttemptsAfterAcceptance(h)
    requires h[0].row.retryDeadline == Some(h[0].row.eligibleAt + age)
    requires StartsAttempt(h, |h| - 1)
    ensures Pace(Last(h).attempts) < age
  {
    var j := |h| - 1;
    assert h[..j + 1] == h;
    AttemptsPaced(h, j);
    AttemptWindow(h, FirstAttempt(h));
    AttemptWindow(h, j);
  }

  lemma BeforeKeepsClocks(h: History)
    requires Valid(h) && |h| > 1 && ForwardAttempts(h) && AttemptsAfterAcceptance(h)
    ensures ForwardAttempts(Before(h)) && AttemptsAfterAcceptance(Before(h))
  {
    BeforeForward(h);
    assert forall k :: 0 <= k < |Before(h)| ==> Before(h)[k] == h[k];
    forall k | 0 <= k < |Before(h)| && StartsAttempt(Before(h), k)
      ensures Reading(h[0].op) <= h[k].op.now
    {
      assert StartsAttempt(h, k);
    }
  }

  /** A positive retry age bounds the pace of the attempts made, even with unlimited retries. */
  lemma {:induction false} PaceWithinAge(h: History, age: Duration)
    requires Valid(h) && Own(h) && ForwardAttempts(h) && AttemptsAfterAcceptance(h)
    requires h[0].row.retryDeadline == Some(h[0].row.eligibleAt + age)
    ensures Last(h).attempts > 0 ==> Pace(Last(h).attempts) < age
  {
    if |h| > 1 {
      Peel(h);
      if StartsAttempt(h, |h| - 1) {
        AttemptWithinAge(h, age);
      } else {
        BeforeKeepsClocks(h);
        PaceWithinAge(Before(h), age);
      }
    }
  }

  lemma PaceBelowAge(n: int, age: Duration)
    requires n >= 0 && age > 0 && (n > 0 ==> Pace(n) < age)
    ensures n * MINUTE < 7 * MINUTE + age
  {
    PaceGrows(n);
    if n < 7 {
      assert n * MINUTE <= 6 * MINUTE;
    }
  }

  /** Hence fewer than 7 + A / 60 s attempts for a retry age A. */
  lemma AgeBoundsAttempts(h: History, age: Duration)
    requires Valid(h) && Own(h) && ForwardAttempts(h) && AttemptsAfterAcceptance(h)
    requires h[0].row.retryDeadline == Some(h[0].row.eligibleAt + age)
    ensures Last(h).attempts * MINUTE < 7 * MINUTE + age
  {
    HistoryInv(h);
    PaceWithinAge(h, age);
    PaceBelowAge(Last(h).attempts, age);
  }

  // ---------- Reservations ----------

  /** No attempt is read more than 50 s (lease less reservation) behind an earlier reservation. */
  ghost predicate SkewTolerated(h: History) {
    forall a, b :: 0 <= a < b < |h| && TakesReservation(h, a) && StartsAttempt(h, b)
                   ==> h[a].op.now <= h[b].op.now + (LEASE - RESERVATION)
  }

  lemma {:induction false} ClosedAfterReservation(h: History, i: nat, k: nat)
    requires Valid(h) && SkewTolerated(h) && i <= k < |h| && TakesReservation(h, i)
    requires forall m :: i < m <= k ==> !h[m].op.Finish?
    ensures h[k].row.state == Sending ==> h[k].row.leaseUntil.Some? && h[i].op.now + RESERVATION <= h[k].row.leaseUntil.value
    ensures h[k].row.state == Pending || h[k].row.state == Failed
            ==> h[k].row.dispatchAfter.Some? && h[i].op.now + RESERVATION <= h[k].row.dispatchAfter.value
    decreases k
  {
    StepOf(h, k);
    if k > i {
      ClosedAfterReservation(h, i, k - 1);
      assert StepOk(h, k);
    }
  }

  /** Reservations of a row with no completion between them are at least 10 s apart. */
  lemma ReservationsSpaced(h: History, i: nat, j: nat)
    requires Valid(h) && SkewTolerated(h) && i < j < |h| && TakesReservation(h, i) && TakesReservation(h, j)
    requires forall m :: i < m < j ==> !h[m].op.Finish?
    ensures h[i].op.now + RESERVATION <= h[j].op.now
  {
    ClosedAfterReservation(h, i, j - 1);
    assert StepOk(h, j);
  }

  /** The tolerance is exact: an attempt read any bit further behind lets the next reservation come that bit too soon. */
  lemma SkewBeyondTolerance(row: Row, start: Instant, excess: Duration) returns (h: History)
    requires NewRow(row, start) && row.nextRetryAt.None? && row.retryDeadline.None? && row.maxRetries == -1
    requires 0 < excess <= RESERVATION
    ensures Valid(h) && Own(h) && |h| == 4 && TakesReservation(h, 1) && StartsAttempt(h, 2) && TakesReservation(h, 3)
    ensures ClocksWithin(h, LEASE - RESERVATION + excess)
    ensures h[3].op.now == h[1].op.now + RESERVATION - excess
  {
    h := [Entry(Insert(start), row)];
    h := Then(h, Reserve(start));
    h := Then(h, Claim(start - (LEASE - RESERVATION) - excess, 1));
    h := Then(h, Reserve(start + RESERVATION - excess));
  }

  lemma Then(h: History, op: RowOp) returns (h': History)
    requires Valid(h) && Enabled(Last(h), op)
    ensures Valid(h') && h' == h + [Entry(op, Step(Last(h), op))]
  {
    h' := h + [Entry(op, Step(Last(h), op))];
    ValidExtend(h, op);
  }

  /** What bounded skew gives: spacing up to 50 s of it, the other clock conditions without any. */
  lemma SkewSuffices(h: History, skew: Duration)
    requires Valid(h) && ClocksWithin(h, skew)
    ensures skew <= LEASE - RESERVATION ==> SkewTolerated(h)
    ensures skew <= 0 ==> ForwardAttempts(h) && AttemptsAfterAcceptance(h)
  {
    forall i | 0 < i < |h| && h[i].op.Finish?
      ensures Reading(h[i - 1].op) <= Reading(h[i].op) + skew
    {
    }
    forall k | 0 <= k < |h| && StartsAttempt(h, k)
      ensures k > 0 ==> Reading(h[0].op) <= h[k].op.now + skew
    {
      if k > 0 { assert Reading(h[0].op) <= Reading(h[k].op) + skew; }
    }
    forall a, b | 0 <= a < b < |h| && TakesReservation(h, a) && StartsAttempt(h, b)
      ensures h[a].op.now <= h[b].op.now + skew
    {
      assert Reading(h[a].op) <= Reading(h[b].op) + skew;
    }
  }

  // ---------- Due times ----------

  /** The instant a row that is not terminal falls due (it was accepted by then). */
  function DueAt(row: Row): Instant {
    var gate := (g: Option<Instant>) => if g.Some? then Max(row.eligibleAt, g.value) else row.eligibleAt;
    if row.state == Sending then gate(row.leaseUntil) else Max(gate(row.nextRetryAt), gate(row.dispatchAfter))
  }

  /** A row that is not terminal is never lost: it falls due at DueAt, at most 990 s past the latest reading. */
  lemma NeverStranded(h: History, latest: Instant)
    requires Valid(h) && !Terminal(Last(h)) && forall i :: 0 <= i < |h| ==> Reading(h[i].op) <= latest
    ensures DueAt(Last(h)) <= Max(Last(h).eligibleAt, latest + 990 * SECOND)
    ensures forall now :: Last(h).eligibleAt <= now ==> (Due(Last(h), now) <==> DueAt(Last(h)) <= now)
  {
    HistoryBounded(h, latest);
  }
}
