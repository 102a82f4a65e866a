/**
 * The whole protocol: one table, any number of workers and relays, and an adversary that plays
 * the broker, the scheduler, the providers and every clock. A worker may be handed any envelope
 * at any time (so notifications may be lost, duplicated, reordered or forged), may crash between
 * any two steps, and each step carries the clock reading its process took, which need not agree
 * with any other. Each step holds at most one database transaction.
 */
module Protocol {
  import opened Base
  import opened Messages
  import opened Outbox
  import opened Retry
  import opened Submission
  import opened Repository
  import opened RowMachine

  type WorkerId = nat

  const BATCH: nat := 32

  /** The timeout of a provider call. */
  const ATTEMPT: Duration := 30 * SECOND

  /** How a delivery is settled: acknowledged, requeued, or rejected for good. */
  datatype Verdict = Ack | Requeue | Reject

  /** A decoded broker message: a submission (nil id) or a notification. */
  datatype Envelope =
    | Malformed
    | Direct(message: Option<Message>, options: Options)
    | Notice(id: Id)

  /**
   * Where a worker stands in handleDelivery; `outbox` is its private copy of the claimed row, and
   * `since` the reading it took when it called the provider.
   */
  datatype Pc =
    | Idle
    | Claimed(envelope: Envelope, outbox: Row)
    | Calling(envelope: Envelope, outbox: Row, since: Instant)
    | Called(envelope: Envelope, outbox: Row, outcome: Outcome)
    | Settling(envelope: Envelope, verdict: Verdict)
  {
    predicate HoldsCopy() {
      Claimed? || Calling? || Called?
    }
  }

  datatype ProviderCall = ProviderCall(id: Id, token: Token)
  datatype Acceptance = Acceptance(channel: Channel, key: string, content: Canonical, id: Id)
  datatype Settlement = Settlement(envelope: Envelope, verdict: Verdict)

  /**
   * Steps read rows, workers and tokens (the lease tokens issued so far). The other fields are
   * a record of the run: what happened to each row, the provider calls begun, the tokens under
   * which a provider reported success, the submissions accepted, the settlements, and the latest
   * clock reading any process has taken.
   */
  datatype System = System(
    rows: Table, workers: map<WorkerId, Pc>, tokens: set<Token>,
    history: map<Id, History>, calls: seq<ProviderCall>, delivered: set<Token>,
    accepted: seq<Acceptance>, settled: seq<Settlement>, latest: Instant)

  datatype Step =
    | Submit(message: Message, options: Options, now: Instant, maxAge: Duration, id: Id, createdAt: Instant)
    | Refuse(worker: WorkerId, envelope: Envelope, stopping: bool)
    | Ingest(worker: WorkerId, envelope: Envelope, now: Instant, maxAge: Duration, id: Id, createdAt: Instant, fault: bool)
    | Claim(worker: WorkerId, channel: Channel, envelope: Envelope, now: Instant, token: Token, hidden: bool, fault: bool)
    | Call(worker: WorkerId, now: Instant)
    | Return(worker: WorkerId, outcome: Outcome, now: Instant)
    | Finish(worker: WorkerId, now: Instant, draw: nat, fault: bool)
    | Settle(worker: WorkerId)
    | Crash(worker: WorkerId)
    | Reserve(channel: Channel, now: Instant, locked: set<Id>)

  function PcOf(s: System, w: WorkerId): Pc {
    if w in s.workers then s.workers[w] else Idle
  }

  /**
   * New ids and lease tokens are fresh; the rest is the order of handleDelivery. A fault is a
   * transaction that did not commit; one that commits and loses its reply is followed by Crash.
   * A failed attempt with a retry count below -1 has no Finish: the delay's shift count would be
   * negative, on which Go panics. The code hands Finish the reading taken at the return; here it
   * may be any.
   */
  predicate Possible(s: System, step: Step) {
    match step
    case Submit(_, _, _, _, id, _) => id !in s.rows
    case Refuse(w, e, stopping) => PcOf(s, w).Idle? && (stopping || e.Malformed? || (e.Direct? && e.message.None?))
    case Ingest(w, e, _, _, id, _, _) => PcOf(s, w).Idle? && e.Direct? && e.message.Some? && id !in s.rows
    case Claim(w, _, e, _, token, _, _) => PcOf(s, w).Idle? && e.Notice? && token !in s.tokens && token != NO_TOKEN
    case Call(w, _) => PcOf(s, w).Claimed?
    case Return(w, outcome, _) => if outcome.Undecodable? then PcOf(s, w).Claimed? else PcOf(s, w).Calling?
    case Finish(w, _, _, _) => PcOf(s, w).Called? && (PcOf(s, w).outcome.Delivered? || PcOf(s, w).outbox.retryCount >= -1)
    case Settle(w) => PcOf(s, w).Settling?
    case Crash(_) => true
    case Reserve(_, _, _) => Keyed(s.rows)
  }

  /** The database operation a step performs on rows, seen from one row (none: Backfill, never enabled). */
  function OpOf(s: System, step: Step): RowOp
    requires Possible(s, step)
  {
    match step
    case Submit(_, _, now, _, _, _) => RowOp.Insert(now)
    case Ingest(_, _, now, _, _, _, _) => RowOp.Insert(now)
    case Claim(_, _, _, now, token, _, _) => RowOp.Claim(now, token)
    case Finish(w, now, draw, _) => RowOp.Finish(now, PcOf(s, w).outbox.leaseToken, PcOf(s, w).outcome, draw)
    case Reserve(_, now, _) => RowOp.Reserve(now)
    case _ => RowOp.Backfill
  }

  /** The record of what happened to each row: an entry for every row a step changed or inserted. */
  function Recorded(history: map<Id, History>, rows: Table, rows': Table, op: RowOp): map<Id, History> {
    map id | id in rows' ::
      if id !in history then [Entry(op, rows'[id])]
      else if id in rows && rows[id] == rows'[id] then history[id]
      else history[id] + [Entry(op, rows'[id])]
  }

  ghost function WithRows(s: System, rows: Table, op: RowOp): System {
    s.(rows := rows, history := Recorded(s.history, s.rows, rows, op), latest := Max(s.latest, Reading(op)))
  }

  ghost function At(s: System, w: WorkerId, pc: Pc): System {
    s.(workers := s.workers[w := pc])
  }

  // ---------- Acceptance ----------

  datatype AcceptResult = Invalid | Conflict | Accepted(id: Id)

  /** The row accept inserts, if the submission is valid. */
  function Candidate(lib: Library, m: Message, o: Options, now: Instant, maxAge: Duration, id: Id, createdAt: Instant): Option<Row> {
    match Canonicalise(lib, m, o)
    case None => None
    case Some(c) => Some(NewOutbox(c, o.key, now, maxAge).(id := id, createdAt := createdAt))
  }

  ghost function AcceptAnswer(t: Table, candidate: Option<Row>): AcceptResult {
    if candidate.None? then Invalid
    else match CreateAnswer(t, candidate.value)
      case IdempotencyConflict => Conflict
      case Stored(row) => Accepted(row.id)
  }

  ghost function Accept(lib: Library, s: System, m: Message, o: Options, now: Instant, maxAge: Duration, id: Id,
                        createdAt: Instant): System
  {
    var candidate := Candidate(lib, m, o, now, maxAge, id, createdAt);
    if candidate.None? then s
    else
      var s' := WithRows(s, AfterCreate(s.rows, candidate.value), RowOp.Insert(now));
      match AcceptAnswer(s.rows, candidate)
      case Accepted(k) => s'.(accepted := s.accepted + [Acceptance(m.Channel(), o.key, Canonicalise(lib, m, o).value, k)])
      case _ => s'
  }

  // ---------- Steps ----------

  ghost function Next(lib: Library, s: System, step: Step): System
    requires Possible(s, step)
  {
    match step
    case Submit(m, o, now, maxAge, id, createdAt) => Accept(lib, s, m, o, now, maxAge, id, createdAt)
    case Refuse(w, e, stopping) => At(s, w, Settling(e, if stopping then Requeue else Reject))
    case Ingest(w, e, now, maxAge, id, createdAt, fault) =>
      if fault then At(s, w, Settling(e, Requeue))
      else
        var candidate := Candidate(lib, e.message.value, e.options, now, maxAge, id, createdAt);
        At(Accept(lib, s, e.message.value, e.options, now, maxAge, id, createdAt), w,
           Settling(e, if AcceptAnswer(s.rows, candidate).Accepted? then Ack else Reject))
    case Claim(w, channel, e, now, token, hidden, fault) =>
      if fault then At(s, w, Settling(e, Requeue))
      else
        var s' := WithRows(s, AfterClaim(s.rows, e.id, channel, now, LEASE, token, hidden), RowOp.Claim(now, token))
                  .(tokens := s.tokens + {token});
        At(s', w,
           match ClaimAnswer(s.rows, e.id, channel, now, LEASE, token, hidden)
           case NotFound => Settling(e, Reject)
           case NotClaimable => Settling(e, Ack)
           case Claimed(outbox) => Pc.Claimed(e, outbox))
    case Call(w, now) =>
      var pc := PcOf(s, w);
      At(s, w, Calling(pc.envelope, pc.outbox, now))
      .(calls := s.calls + [ProviderCall(pc.outbox.id, pc.outbox.leaseToken)], latest := Max(s.latest, now))
    case Return(w, outcome, now) =>
      var pc := PcOf(s, w);
      At(s, w, Called(pc.envelope, pc.outbox, outcome))
      .(delivered := if outcome.Delivered? then s.delivered + {pc.outbox.leaseToken} else s.delivered,
      latest := Max(s.latest, now))
    case Finish(w, now, draw, fault) =>
      var pc := PcOf(s, w);
      if fault then At(s, w, Settling(pc.envelope, Requeue))
      else
        var outbox := Decide(pc.outbox, pc.outcome, now, draw);
        At(WithRows(s, AfterFinish(s.rows, outbox, now), OpOf(s, step)), w,
           Settling(pc.envelope, if FinishAccepted(s.rows, outbox, now) then Ack else Requeue))
    case Settle(w) =>
      var pc := PcOf(s, w);
      At(s, w, Idle).(settled := s.settled + [Settlement(pc.envelope, pc.verdict)])
    case Crash(w) => At(s, w, Idle)
    case Reserve(channel, now, locked) =>
      var batch := Batch(s.rows, channel, now, BATCH, locked);
      WithRows(s, AfterReserve(s.rows, batch, now, RESERVATION), RowOp.Reserve(now))
  }

  /** A run takes the steps in turn; one that is not possible where it stands is passed over. */
  ghost function Run(lib: Library, s0: System, steps: seq<Step>): System {
    if steps == [] then s0
    else
      var s := Run(lib, s0, steps[..|steps| - 1]);
      var step := steps[|steps| - 1];
      if Possible(s, step) then Next(lib, s, step) else s
  }

  /** A fingerprint found in a row is that of the row's own content. */
  predicate Faithful(row: Row) {
    row.fingerprint.Digest? ==> row.fingerprint.content.payload == row.payload
                                && row.fingerprint.content.maxRetries == row.maxRetries
  }

  /** A run starts on a migrated table, empty or not, with nothing in flight. */
  ghost predicate Start(s: System) {
    && Keyed(s.rows) && UniqueKeys(s.rows)
    && (forall id <- s.rows :: MigratedRow(s.rows[id]) && Faithful(s.rows[id]))
    && s.history == (map id | id in s.rows :: [Entry(RowOp.Backfill, s.rows[id])])
    && s.workers == map[] && s.tokens == {} && s.calls == [] && s.delivered == {}
    && s.accepted == [] && s.settled == [] && s.latest >= 0
  }
}
