/**
 * The life of one row: which operations can change it, what each one writes, and the histories
 * they build. No operation here reads a clock of its own: `now` is whatever the caller read.
 */
module RowMachine {
  import opened Base
  import opened Outbox
  import opened Retry

  const RESERVATION: Duration := 10 * SECOND
  const LEASE: Duration := 60 * SECOND

  datatype RowOp =
    | Insert(now: Instant)
    | Backfill
    | Reserve(now: Instant)
    | Claim(now: Instant, token: Token)
    | Finish(now: Instant, token: Token, outcome: Outcome, draw: nat)

  /** The operation's guard holds, so it writes the row. */
  predicate Enabled(row: Row, op: RowOp) {
    match op
    case Reserve(now) => Due(row, now)
    case Claim(now, token) => Claimable(row, now) && token != NO_TOKEN
    case Finish(now, token, outcome, _) => HoldsLease(row, token, now) && (outcome.Delivered? || row.retryCount >= -1)
    case _ => false
  }

  /** The row an enabled operation leaves. Finish is stated on the stored row, not on a worker's copy. */
  function Step(row: Row, op: RowOp): Row
    requires Enabled(row, op)
  {
    match op
    case Reserve(now) => ReserveRow(row, now, RESERVATION)
    case Claim(now, token) => ClaimRow(row, now, LEASE, token)
    case Finish(now, _, outcome, draw) => Completion(Decide(row, outcome, now, draw), now)
  }

  // ---------- Where a row starts ----------

  /** A row as acceptance inserts it at the reading `now`. */
  predicate NewRow(row: Row, now: Instant) {
    && row.state == Pending && row.attempts == 0 && row.retryCount == 0 && row.maxRetries >= -1
    && row.leaseToken == NO_TOKEN && row.leaseUntil.None? && row.dispatchAfter.None? && row.lastError == ""
    && row.sentAt.None?
    && (if row.nextRetryAt.Some? then row.nextRetryAt.value == row.eligibleAt > now else row.eligibleAt == now)
    && (row.retryDeadline.Some? ==> row.eligibleAt < row.retryDeadline.value)
  }

  /** A row as the migration leaves it. */
  predicate MigratedRow(row: Row) {
    && row.attempts == (if row.state == Pending then 0 else row.retryCount + 1)
    && (row.state == Sending ==> row.leaseUntil == Some(0))
    && row.dispatchAfter.None?
    && (row.nextRetryAt.Some? ==> row.nextRetryAt.value == row.eligibleAt)
  }

  // ---------- Histories ----------

  /** One change of a row: the operation and the row it left. */
  datatype Entry = Entry(op: RowOp, row: Row)
  type History = seq<Entry>

  predicate Starts(e: Entry) {
    match e.op
    case Insert(now) => NewRow(e.row, now)
    case Backfill => MigratedRow(e.row)
    case _ => false
  }

  predicate StepOk(h: History, i: nat)
    requires 0 < i < |h|
  {
    Enabled(h[i - 1].row, h[i].op) && h[i].row == Step(h[i - 1].row, h[i].op)
  }

  ghost predicate Valid(h: History) {
    && |h| > 0
    && Starts(h[0])
    && forall i {:trigger StepOk(h, i)} :: 0 < i < |h| ==> StepOk(h, i)
  }

  function Last(h: History): Row
    requires |h| > 0
  {
    h[|h| - 1].row
  }

  function Before(h: History): History
    requires |h| > 0
  {
    h[..|h| - 1]
  }

  /** The row was inserted by acceptance, not found by the migration. */
  predicate Own(h: History) {
    |h| > 0 && h[0].op.Insert?
  }

  lemma ValidPrefix(h: History, n: nat)
    requires Valid(h) && 0 < n <= |h|
    ensures Valid(h[..n])
  {
    forall i | 0 < i < n
      ensures StepOk(h[..n], i)
    {
      assert StepOk(h, i);
    }
  }

  lemma ValidExtend(h: History, op: RowOp)
    requires Valid(h) && Enabled(Last(h), op)
    ensures Valid(h + [Entry(op, Step(Last(h), op))])
  {
    var h' := h + [Entry(op, Step(Last(h), op))];
    forall i | 0 < i < |h'|
      ensures StepOk(h', i)
    {
      if i < |h| { assert StepOk(h, i); }
    }
  }

  /** The last step of a history, as proofs by induction on its length take it. */
  lemma Peel(h: History)
    requires Valid(h) && |h| > 1
    ensures Valid(Before(h))
    ensures Before(h)[0] == h[0]
    ensures Last(Before(h)) == h[|h| - 2].row
    ensures var e := h[|h| - 1]; Enabled(Last(Before(h)), e.op) && e.row == Step(Last(Before(h)), e.op)
  {
    ValidPrefix(h, |h| - 1);
    assert StepOk(h, |h| - 1);
  }

  // ---------- Reading a history ----------

  /** Entry i started an attempt (a Claim may also retire the row). */
  predicate StartsAttempt(h: History, i: nat)
    requires i < |h|
  {
    h[i].op.Claim? && h[i].row.state == Sending
  }

  /** Entry i took a dispatch reservation, so its notification is published. */
  predicate TakesReservation(h: History, i: nat)
    requires i < |h|
  {
    h[i].op.Reserve? && h[i].row.state != Dead
  }

  function Attempts(h: History): nat {
    if h == [] then 0 else Attempts(Before(h)) + if StartsAttempt(h, |h| - 1) then 1 else 0
  }

  /** Completions that were committed. */
  function Completions(h: History): nat {
    if h == [] then 0 else Completions(Before(h)) + if h[|h| - 1].op.Finish? then 1 else 0
  }

  /** Expired leases that ReserveDispatch took back, to Failed or to Dead. */
  function Recoveries(h: History): nat {
    if |h| < 2 then 0
    else Recoveries(Before(h)) + if h[|h| - 1].op.Reserve? && h[|h| - 2].row.state == Sending then 1 else 0
  }

  /** Changes of the state column. */
  function StateChanges(h: History): nat {
    if |h| < 2 then 0
    else StateChanges(Before(h)) + if h[|h| - 1].row.state != h[|h| - 2].row.state then 1 else 0
  }

  function ClaimTokens(h: History): set<Token> {
    if h == [] then {}
    else ClaimTokens(Before(h)) + if StartsAttempt(h, |h| - 1) then {h[|h| - 1].op.token} else {}
  }

  /** The reading an operation carried; a backfilled row counts from the epoch its lease was set to. */
  function Reading(op: RowOp): Instant {
    match op
    case Backfill => 0
    case _ => op.now
  }

  /** No worker's own clock ran backwards between its claim and its completion. */
  ghost predicate ForwardAttempts(h: History) {
    forall i {:trigger h[i]} :: 0 < i < |h| && h[i].op.Finish? ==> Reading(h[i - 1].op) <= Reading(h[i].op)
  }

  /** No reading of the history falls more than `skew` behind an earlier one. */
  ghost predicate ClocksWithin(h: History, skew: Duration) {
    forall i, j :: 0 <= i < j < |h| ==> Reading(h[i].op) <= Reading(h[j].op) + skew
  }
}
