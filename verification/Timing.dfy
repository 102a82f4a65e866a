/** Properties of whole runs that speak of time, each under the clock condition it needs. */
module Timing {
  import opened Base
  import opened Messages
  import opened Outbox
  import opened Retry
  import opened RowMachine
  import opened RowLaws
  import opened Protocol
  import opened Theorems

  /** The record of a row at the end of a run. */
  ghost function RecordOf(lib: Library, s0: System, steps: seq<Protocol.Step>, id: Id): (h: History)
    requires Start(s0) && id in Run(lib, s0, steps).rows
    ensures Valid(h) && Last(h) == Run(lib, s0, steps).rows[id]
    ensures id in Run(lib, s0, steps).history && h == Run(lib, s0, steps).history[id]
    ensures id !in s0.rows ==> Own(h)
  {
    RunHistories(lib, s0, steps, id);
    Run(lib, s0, steps).history[id]
  }

  /**
   * The lease windows of one row never overlap. Clocks of different processes may disagree by
   * any amount; only a worker's own clock must not run backwards between claim and completion.
   */
  lemma LeaseWindowsDisjoint(lib: Library, s0: System, steps: seq<Protocol.Step>, id: Id, i: nat, j: nat)
    requires Start(s0) && ForwardWorkers(lib, s0, steps) && id in Run(lib, s0, steps).rows
    requires var h := RecordOf(lib, s0, steps, id);
             i < j < |h| && StartsAttempt(h, i) && StartsAttempt(h, j)
    ensures var h := RecordOf(lib, s0, steps, id); WindowEnd(h, i) <= h[j].op.now
  {
    AttemptsForward(lib, s0, steps, id);
    hide Run, ForwardWorkers, Start;
    WindowsDisjoint(RecordOf(lib, s0, steps, id), i, j);
  }

  /**
   * Consecutive attempts are paced: in every run the next attempt of a row is claimed at least
   * min(0.9 retryDelay(n), 60 s) after attempt n was, also when attempt n started late, never
   * finished, or was recovered. Again only each worker's own clock matters.
   */
  lemma ConsecutiveAttempts(lib: Library, s0: System, steps: seq<Protocol.Step>, id: Id, i: nat, j: nat)
    requires Start(s0) && ForwardWorkers(lib, s0, steps) && id in Run(lib, s0, steps).rows
    requires var h := RecordOf(lib, s0, steps, id);
             i < j < |h| && StartsAttempt(h, i) && StartsAttempt(h, j)
    ensures var h := RecordOf(lib, s0, steps, id); h[i].op.now + Gap(h[i].row.attempts) <= h[j].op.now
  {
    AttemptsForward(lib, s0, steps, id);
    hide Run, ForwardWorkers, Start;
    ConsecutiveGap(RecordOf(lib, s0, steps, id), i, j);
  }

  /**
   * In every run a failed attempt that is not the last makes its row wait as long as the number of
   * the attempt says, to a tenth, and then the row is due.
   */
  lemma RetriesWait(lib: Library, s0: System, steps: seq<Protocol.Step>, id: Id, j: nat)
    requires Start(s0) && id in Run(lib, s0, steps).rows
    requires var h := RecordOf(lib, s0, steps, id); j < |h| && h[j].op.Finish? && h[j].row.state == Failed
    ensures var e := RecordOf(lib, s0, steps, id)[j];
            && e.row.nextRetryAt.Some? && WaitFits(e.row.attempts, e.row.nextRetryAt.value - e.op.now)
            && forall now :: Due(e.row, now) <==> e.row.nextRetryAt.value <= now
  {
    hide Run, Start, WaitFits;
    FailureWaits(RecordOf(lib, s0, steps, id), j);
  }

  lemma RecordClocks(lib: Library, s0: System, steps: seq<Protocol.Step>, skew: Duration, id: Id)
    requires Start(s0) && ClocksAgree(lib, s0, steps, skew) && id in Run(lib, s0, steps).rows
    ensures skew <= LEASE - RESERVATION ==> SkewTolerated(RecordOf(lib, s0, steps, id))
    ensures skew <= 0 ==> ForwardAttempts(RecordOf(lib, s0, steps, id)) && AttemptsAfterAcceptance(RecordOf(lib, s0, steps, id))
  {
    RecordsWithin(lib, s0, steps, skew, id);
    hide Run, ClocksAgree, Start;
    SkewSuffices(RecordOf(lib, s0, steps, id), skew);
  }

  /** Every attempt starts within [eligible, deadline), both fixed when the row was accepted. */
  lemma AttemptsInWindow(lib: Library, s0: System, steps: seq<Protocol.Step>, id: Id, j: nat)
    requires Start(s0) && ClocksAgree(lib, s0, steps, 0) && id in Run(lib, s0, steps).rows && id !in s0.rows
    requires var h := RecordOf(lib, s0, steps, id); j < |h| && StartsAttempt(h, j)
    ensures var row := Run(lib, s0, steps).rows[id];
            var now := RecordOf(lib, s0, steps, id)[j].op.now;
            row.eligibleAt <= now && (row.retryDeadline.Some? ==> now < row.retryDeadline.value)
  {
    RecordClocks(lib, s0, steps, 0, id);
    hide Run, ClocksAgree, Start;
    var h := RecordOf(lib, s0, steps, id);
    AttemptWindow(h, j);
    HistoryInv(h);
  }

  /** The gaps between attempts add up, so a retry age A admits fewer than 7 + A / 60 s attempts even without a retry limit. */
  lemma AttemptsPacedByAge(lib: Library, s0: System, steps: seq<Protocol.Step>, id: Id, age: Duration)
    requires Start(s0) && ClocksAgree(lib, s0, steps, 0) && id in Run(lib, s0, steps).rows && id !in s0.rows
    requires Run(lib, s0, steps).rows[id].retryDeadline == Some(Run(lib, s0, steps).rows[id].eligibleAt + age)
    ensures Run(lib, s0, steps).rows[id].attempts * MINUTE < 7 * MINUTE + age
  {
    RecordClocks(lib, s0, steps, 0, id);
    hide Run, ClocksAgree, Start;
    var h := RecordOf(lib, s0, steps, id);
    HistoryInv(h);
    AgeBoundsAttempts(h, age);
  }

  /**
   * Two dispatch reservations of a row with no completion between them are at least 10 s apart,
   * also by way of a claim and an expired lease, as long as readings lag by at most 50 s.
   */
  lemma DispatchesSpaced(lib: Library, s0: System, steps: seq<Protocol.Step>, skew: Duration, id: Id, i: nat, j: nat)
    requires Start(s0) && ClocksAgree(lib, s0, steps, skew) && skew <= 50 * SECOND && id in Run(lib, s0, steps).rows
    requires var h := RecordOf(lib, s0, steps, id);
             i < j < |h| && TakesReservation(h, i) && TakesReservation(h, j) && forall m :: i < m < j ==> !h[m].op.Finish?
    ensures var h := RecordOf(lib, s0, steps, id); h[i].op.now + 10 * SECOND <= h[j].op.now
  {
    RecordClocks(lib, s0, steps, skew, id);
    hide Run, ClocksAgree, Start;
    ReservationsSpaced(RecordOf(lib, s0, steps, id), i, j);
  }

  /** With a retry limit m a row changes state at most 2(m + 1) times in a whole run, whatever the clocks say. */
  lemma StateChangesEnd(lib: Library, s0: System, steps: seq<Protocol.Step>, id: Id)
    requires Start(s0) && id in Run(lib, s0, steps).rows && id !in s0.rows && Run(lib, s0, steps).rows[id].maxRetries >= 0
    ensures StateChanges(RecordOf(lib, s0, steps, id)) <= 2 * (Run(lib, s0, steps).rows[id].maxRetries + 1)
  {
    var h := RecordOf(lib, s0, steps, id);
    HistoryInv(h);
    StateChangesBounded(h);
  }
}
