/** The outbox row and the decisions taken on one row (outbox_repo/delivery.go, repository/model). */
module Outbox {
  import opened Base
  import opened Messages

  /** What a submission asks for, in the normal form that is compared and stored. */
  datatype Canonical = Canonical(payload: Message, maxRetries: int, sendAt: Option<Instant>)

  /**
   * SHA-256 of the canonical form, read as an injective function: the digest carries its argument.
   * Unset is the empty string of rows older than fingerprints.
   */
  datatype Fingerprint = Unset | Digest(content: Canonical)

  datatype OutboxState = Pending | Sending | Failed | Sent | Dead

  type Id = nat

  /** Lease tokens are fresh UUIDs; NO_TOKEN stands for the empty string. */
  type Token = nat
  const NO_TOKEN: Token := 0

  datatype Row = Row(
    id: Id, createdAt: Instant, channel: Channel, messageId: string, payload: Message, fingerprint: Fingerprint,
    eligibleAt: Instant, retryDeadline: Option<Instant>, maxRetries: int,
    state: OutboxState, attempts: int, retryCount: int, leaseToken: Token, leaseUntil: Option<Instant>,
    dispatchAfter: Option<Instant>, nextRetryAt: Option<Instant>, lastError: string, sentAt: Option<Instant>)

  /** The columns a delivery step may write. */
  datatype Progress = Progress(
    state: OutboxState, attempts: int, retryCount: int, leaseToken: Token, leaseUntil: Option<Instant>,
    dispatchAfter: Option<Instant>, nextRetryAt: Option<Instant>, lastError: string, sentAt: Option<Instant>)

  function TransitionValues(row: Row): Progress {
    Progress(row.state, row.attempts, row.retryCount, row.leaseToken, row.leaseUntil,
             row.dispatchAfter, row.nextRetryAt, row.lastError, row.sentAt)
  }

  /** UPDATE ... SET: the named columns change, the others keep what is stored. */
  function Updates(stored: Row, values: Progress): Row {
    stored.(state := values.state, attempts := values.attempts, retryCount := values.retryCount,
    leaseToken := values.leaseToken, leaseUntil := values.leaseUntil, dispatchAfter := values.dispatchAfter,
    nextRetryAt := values.nextRetryAt, lastError := values.lastError, sentAt := values.sentAt)
  }

  /** Two rows agree on every column that is fixed at insertion. */
  predicate SameSubmission(a: Row, b: Row) {
    && a.id == b.id && a.createdAt == b.createdAt && a.channel == b.channel && a.messageId == b.messageId
    && a.payload == b.payload && a.fingerprint == b.fingerprint && a.eligibleAt == b.eligibleAt
    && a.retryDeadline == b.retryDeadline && a.maxRetries == b.maxRetries
  }

  predicate Terminal(row: Row) {
    row.state == Sent || row.state == Dead
  }

  predicate Exhausted(row: Row, now: Instant) {
    || (row.maxRetries >= 0 && row.attempts > row.maxRetries)
    || (row.retryDeadline.Some? && row.retryDeadline.value <= now)
  }

  const BUDGET_ERROR := "delivery retry budget or age exhausted"
  const UNKNOWN_ERROR := "previous delivery outcome unknown"

  function MakeDead(row: Row): Row {
    row.(state := Dead, leaseToken := NO_TOKEN, leaseUntil := None, nextRetryAt := None, dispatchAfter := None,
    lastError := BUDGET_ERROR)
  }

  /** The WHERE clause of ReserveDispatch, apart from the channel. */
  predicate Due(row: Row, now: Instant) {
    || ((row.state == Pending || row.state == Failed) && Reached(row.nextRetryAt, now) && Reached(row.dispatchAfter, now))
    || (row.state == Sending && Reached(row.leaseUntil, now))
  }

  /** What ReserveDispatch writes to a selected row. */
  function ReserveRow(row: Row, now: Instant, interval: Duration): Row {
    if Exhausted(row, now) then MakeDead(row)
    else
      var recovered := if row.state == Sending
                       then row.(state := Failed, lastError := UNKNOWN_ERROR, leaseToken := NO_TOKEN,
                            leaseUntil := None, nextRetryAt := Some(now))
                       else row;
      recovered.(dispatchAfter := Some(now + interval))
  }

  /** The tests Claim makes before it changes a row. */
  predicate Claimable(row: Row, now: Instant) {
    (row.state == Pending || row.state == Failed) && Reached(row.nextRetryAt, now)
  }

  /** What Claim writes to a claimable row. */
  function ClaimRow(row: Row, now: Instant, lease: Duration, token: Token): Row {
    if Exhausted(row, now) then MakeDead(row)
    else row.(state := Sending, attempts := row.attempts + 1, retryCount := row.attempts, leaseToken := token,
         leaseUntil := Some(now + lease))
  }

  /** The WHERE clause of Finish, apart from the id. */
  predicate HoldsLease(row: Row, token: Token, now: Instant) {
    row.state == Sending && row.leaseToken == token && row.leaseUntil.Some? && now < row.leaseUntil.value
  }

  /** The values Finish writes, taken from the caller's copy of the row. */
  function Completion(outbox: Row, now: Instant): Row {
    var closed := outbox.(leaseToken := NO_TOKEN, leaseUntil := None, dispatchAfter := None);
    match outbox.state
    case Sent => closed.(sentAt := Some(now), nextRetryAt := None, lastError := "")
    case Dead => closed.(nextRetryAt := None)
    case _ => closed
  }
}
