/** Retry arithmetic and the worker's verdict on an attempt (internal/service/service.go). */
module Retry {
  import opened Base
  import opened Outbox

  function NormalizeMaxRetries(value: int): int {
    if value < 0 then -1 else value
  }

  /** The last allowed retry has been used. */
  predicate RetryLimitReached(outbox: Row) {
    outbox.maxRetries >= 0 && outbox.retryCount >= outbox.maxRetries
  }

  function Pow2(n: nat): nat {
    if n == 0 then 1 else 2 * Pow2(n - 1)
  }

  /** A negative count would be a negative shift, which Go refuses at run time. */
  function RetryDelay(count: int): Duration
    requires count >= 0
  {
    if count > 9 then 15 * MINUTE else SECOND * Pow2(count)
  }

  /** `draw` is the random source: Int64N(n) is draw % n. Int64N panics when n is not positive. */
  function DurationJitter(duration: Duration, draw: nat): Duration
    requires duration >= 5
  {
    duration - duration / 10 + draw % (duration / 5)
  }

  /** The waits: 1 s doubling to 512 s, then 900 s. */
  lemma {:induction false} RetryDelayRange(count: int)
    requires count >= 0
    ensures SECOND <= RetryDelay(count) <= 15 * MINUTE
    ensures count <= 9 ==> RetryDelay(count) == SECOND * [1, 2, 4, 8, 16, 32, 64, 128, 256, 512][count]
    ensures count > 9 ==> RetryDelay(count) == 900 * SECOND
  {
    if count <= 9 {
      assert Pow2(0) == 1 && Pow2(1) == 2 && Pow2(2) == 4 && Pow2(3) == 8 && Pow2(4) == 16;
      assert Pow2(5) == 32 && Pow2(6) == 64 && Pow2(7) == 128 && Pow2(8) == 256 && Pow2(9) == 512;
      assert count in [0, 1, 2, 3, 4, 5, 6, 7, 8, 9];
    }
  }

  /** Jitter stays within a tenth of the delay, and the whole wait within 990 s. */
  lemma JitterRange(count: int, draw: nat)
    requires count >= 0
    ensures RetryDelay(count) >= 5
    ensures 9 * RetryDelay(count) <= 10 * DurationJitter(RetryDelay(count), draw) < 11 * RetryDelay(count)
    ensures 0 < DurationJitter(RetryDelay(count), draw) < 990 * SECOND
  {
    RetryDelayRange(count);
    var d := RetryDelay(count);
    assert 0 <= draw % (d / 5) < d / 5;
  }

  /** How an attempt ended: the provider took it, the provider failed, or the payload did not decode. */
  datatype Outcome = Delivered | Rejected(error: string) | Undecodable

  function ErrorText(outcome: Outcome): string
    requires !outcome.Delivered?
  {
    match outcome
    case Rejected(error) => error
    case Undecodable => "invalid stored message"
  }

  /** The worker's update of its claimed copy before it calls Finish. */
  function Decide(outbox: Row, outcome: Outcome, now: Instant, draw: nat): Row
    requires outcome.Delivered? || outbox.retryCount >= -1
  {
    if outcome.Delivered? then outbox.(state := Sent)
    else
      RetryDelayRange(outbox.retryCount + 1);
      var next := now + DurationJitter(RetryDelay(outbox.retryCount + 1), draw);
      var failed := outbox.(lastError := ErrorText(outcome), state := Failed, nextRetryAt := Some(next));
      if RetryLimitReached(failed) || (failed.retryDeadline.Some? && failed.retryDeadline.value <= now)
      then failed.(state := Dead) else failed
  }

  /**
   * How long a failed attempt makes its row wait, by the number of the attempt: 2^n s give or take a
   * tenth for the first nine, 900 s give or take a tenth after them.
   */
  ghost predicate WaitFits(attempt: int, wait: Duration) {
    && attempt >= 0
    && (attempt <= 9 ==>
          var seconds := [1, 2, 4, 8, 16, 32, 64, 128, 256, 512][attempt];
          9 * seconds * SECOND <= 10 * wait < 11 * seconds * SECOND)
    && (attempt > 9 ==> 810 * SECOND <= wait < 990 * SECOND)
  }

  /** The worker's verdict on a failed attempt: the error, the wait, and whether the row may be tried again. */
  lemma FailureDecided(outbox: Row, outcome: Outcome, now: Instant, draw: nat)
    requires !outcome.Delivered? && outbox.retryCount >= -1
    ensures var decided := Decide(outbox, outcome, now, draw);
            && decided.lastError == (if outcome.Rejected? then outcome.error else "invalid stored message")
            && decided.nextRetryAt.Some? && WaitFits(outbox.retryCount + 1, decided.nextRetryAt.value - now)
            && decided == outbox.(state := decided.state, lastError := decided.lastError, nextRetryAt := decided.nextRetryAt)
            && decided.state == if (outbox.maxRetries >= 0 && outbox.retryCount >= outbox.maxRetries)
                                   || (outbox.retryDeadline.Some? && outbox.retryDeadline.value <= now)
                                then Dead else Failed
  {
    RetryDelayRange(outbox.retryCount + 1);
    JitterRange(outbox.retryCount + 1, draw);
    hide RetryDelay, DurationJitter;
  }
}
