/**
 * The service's own procedures, step by step as they are written (internal/service/service.go):
 * accept, the two halves of handleDelivery around the provider call, and one channel of a relay
 * pass. Their contracts use the functions the protocol's steps are built from.
 */
module Service {
  import opened Base
  import opened Messages
  import opened Outbox
  import opened Retry
  import opened Submission
  import opened Repository
  import opened RowMachine
  import opened Protocol

  datatype SendResult = Answer(result: AcceptResult) | SenderUnavailable | ShuttingDown

  class Service {
    const table: OutboxTable
    const lib: Library
    const senders: set<Channel>
    const maxAge: Duration
    var stopping: bool

    constructor (table: OutboxTable, lib: Library, senders: set<Channel>, retryMaxAge: Duration)
      ensures this.table == table && this.lib == lib && this.senders == senders && !stopping
      ensures maxAge == Max(retryMaxAge, 0)
    {
      this.table, this.lib, this.senders, this.stopping := table, lib, senders, false;
      this.maxAge := if retryMaxAge < 0 then 0 else retryMaxAge;
    }

    method CheckKey(key: string) returns (ok: bool)
      ensures ok <==> KeyAccepted(key)
      ensures ok <==> |key| <= 200 && forall i | 0 <= i < |key| :: '!' <= key[i] <= '~'
    {
      if |key| > 200 {
        return false;
      }
      for i := 0 to |key|
        invariant forall j :: 0 <= j < i ==> 33 <= key[j] as int <= 126
      {
        if key[i] as int < 33 || key[i] as int > 126 {
          assert key[i] in key;
          return false;
        }
      }
      return true;
    }

    /** Message.Validate on a private copy; the SMS copy has its recipients replaced in place. */
    method Validate(message: Message) returns (result: Option<Message>)
      ensures result == Validated(lib, message)
    {
      if message.SMSMessage? {
        var draft := new SMSDraft(message.to, message.text);
        var ok := draft.Validate();
        RecipientsNormal(message.to);
        assert Recipients(message.to) != [] ==> Recipients(message.to)[0] in Recipients(message.to);
        return if ok then Some(SMSMessage(draft.to, draft.text)) else None;
      }
      return Validated(lib, message);
    }

    /** The first part of accept: the normal form of the submission and its fingerprint. */
    method Normalise(message: Message, options: Options) returns (result: Option<Canonical>)
      ensures result == Canonicalise(lib, message, options)
      ensures result.Some? ==>
                && result.value.payload == (match message
                   case HTTPMessage(url, verb, headers, body) =>
                     HTTPMessage(TrimSpace(url), EffectiveMethod(lib, verb), headers, body)
                   case SMSMessage(to, text) => SMSMessage(Recipients(to), text)
                   case _ => message)
                && result.value.maxRetries == (if options.maxRetries < 0 then -1 else options.maxRetries)
                && result.value.sendAt.Some? == options.sendAt.Some?
    {
      var maxRetries := options.maxRetries;
      if maxRetries < 0 {
        maxRetries := -1;
      }
      var keyOk := CheckKey(options.key);
      if !keyOk {
        return None;
      }
      var copy := Validate(message);
      if copy.None? {
        return None;
      }
      var payload := copy.value;
      if payload.HTTPMessage? {
        payload := payload.(verb := EffectiveMethod(lib, payload.verb));
        payload := payload.(url := TrimSpace(payload.url));
      }
      hide Validated, KeyAccepted, TrimSpace, EffectiveMethod;
      var sendAt := options.sendAt;
      if sendAt.Some? {
        var value := TruncateToMicrosecond(sendAt.value);
        if value < YEAR_1 || value >= YEAR_10000 {
          return None;
        }
        sendAt := Some(value);
      }
      return Some(Canonical(payload, maxRetries, sendAt));
    }

    method Accept(message: Message, options: Options, now: Instant, id: Id, createdAt: Instant) returns (result: AcceptResult)
      requires id !in table.rows && UniqueKeys(table.rows)
      modifies table
      ensures UniqueKeys(table.rows)
      ensures var candidate := Candidate(lib, message, options, now, maxAge, id, createdAt);
              && result == AcceptAnswer(old(table.rows), candidate)
              && table.rows == if candidate.None? then old(table.rows) else AfterCreate(old(table.rows), candidate.value)
      ensures var normal := Canonicalise(lib, message, options);
              && (result.Invalid? <==> normal.None?)
              && (normal.None? ==> table.rows == old(table.rows))
              && (normal.Some? && (options.key == "" || (forall k <- old(table.rows) ::
                    old(table.rows)[k].channel != message.Channel() || old(table.rows)[k].messageId != options.key))
                  ==> && result == Accepted(id)
                      && table.rows == old(table.rows)[id := NewOutbox(normal.value, options.key, now, maxAge)
                                                             .(id := id, createdAt := createdAt)])
              && (normal.Some? ==> forall k <- old(table.rows) |
                    options.key != "" && old(table.rows)[k].channel == message.Channel() && old(table.rows)[k].messageId == options.key ::
                    && table.rows == old(table.rows)
                    && result == if old(table.rows)[k].fingerprint == Digest(normal.value)
                                 then Accepted(old(table.rows)[k].id) else Conflict)
    {
      NormalFormChannel(lib, message, options);
      hide Canonicalise, AfterCreate, CreateAnswer, UniqueKeys;
      var normal := Normalise(message, options);
      if normal.None? {
        return Invalid;
      }
      var content := normal.value;
      var eligible := now;
      var nextRetry := None;
      if content.sendAt.Some? && content.sendAt.value > now {
        eligible := content.sendAt.value;
        nextRetry := Some(eligible);
      }
      var deadline := None;
      if maxAge > 0 {
        deadline := Some(eligible + maxAge);
      }
      var outbox := Row(0, now, content.payload.Channel(), options.key, content.payload, Digest(content), eligible, deadline,
                        content.maxRetries, Pending, 0, 0, NO_TOKEN, None, None, nextRetry, "", None);
      assert outbox == NewOutbox(content, options.key, now, maxAge);
      hide NewOutbox;
      var stored := table.Create(outbox, id, createdAt);
      match stored {
        case IdempotencyConflict => return Conflict;
        case Stored(row) => return Accepted(row.id);
      }
    }

    method Send(message: Option<Message>, options: Options, now: Instant, id: Id, createdAt: Instant) returns (result: SendResult)
      requires id !in table.rows && UniqueKeys(table.rows)
      modifies table
      ensures UniqueKeys(table.rows)
      ensures stopping ==> result == ShuttingDown
      ensures !stopping && message.None? ==> result == Answer(Invalid)
      ensures !stopping && message.Some? && message.value.Channel() !in senders ==> result == SenderUnavailable
      ensures !stopping && message.Some? && message.value.Channel() in senders ==>
                result == Answer(AcceptAnswer(old(table.rows), Candidate(lib, message.value, options, now, maxAge, id, createdAt)))
      ensures !(result.Answer? && result.result.Accepted?) ==> table.rows == old(table.rows)
      ensures forall k <- old(table.rows) :: k in table.rows && table.rows[k] == old(table.rows)[k]
    {
      if stopping {
        return ShuttingDown;
      }
      if message.None? {
        return Answer(Invalid);
      }
      if message.value.Channel() !in senders {
        return SenderUnavailable;
      }
      var answer := Accept(message.value, options, now, id, createdAt);
      return Answer(answer);
    }

    /**
     * handleDelivery up to the provider call, with one database transaction at most. `fault` is a
     * transaction that failed; a worker that goes on holds the claimed copy.
     */
    method BeginDelivery(channel: Channel, envelope: Envelope, now: Instant, id: Id, createdAt: Instant, token: Token,
                         hidden: bool, fault: bool) returns (pc: Pc)
      requires id !in table.rows && UniqueKeys(table.rows)
      modifies table
      ensures stopping ==> pc == Settling(envelope, Requeue) && table.rows == old(table.rows)
      ensures !stopping && (envelope.Malformed? || (envelope.Direct? && envelope.message.None?)) ==>
                pc == Settling(envelope, Reject) && table.rows == old(table.rows)
      ensures !stopping && envelope.Direct? && envelope.message.Some? && !fault ==>
                var candidate := Candidate(lib, envelope.message.value, envelope.options, now, maxAge, id, createdAt);
                && pc == Settling(envelope, if AcceptAnswer(old(table.rows), candidate).Accepted? then Ack else Reject)
                && table.rows == if candidate.None? then old(table.rows) else AfterCreate(old(table.rows), candidate.value)
      ensures !stopping && envelope.Notice? && !fault ==>
                && table.rows == AfterClaim(old(table.rows), envelope.id, channel, now, LEASE, token, hidden)
                && pc == match ClaimAnswer(old(table.rows), envelope.id, channel, now, LEASE, token, hidden)
                     case NotFound => Settling(envelope, Reject)
                     case NotClaimable => Settling(envelope, Ack)
                     case Claimed(outbox) => Pc.Claimed(envelope, outbox)
      ensures !stopping && fault && !envelope.Malformed? && (envelope.Direct? ==> envelope.message.Some?) ==>
                table.rows == old(table.rows) && pc == Settling(envelope, Requeue)
      ensures pc.Claimed? ==> pc.outbox.leaseUntil == Some(now + 60 * SECOND)
      ensures (table.rows, pc)
           == Begun(lib, old(table.rows), stopping, channel, envelope, now, maxAge, id, createdAt, token, hidden, fault)
    {
      hide AfterCreate, CreateAnswer, UniqueKeys, Candidate, AcceptAnswer, Canonicalise;
      if stopping {
        return Settling(envelope, Requeue);
      }
      if envelope.Malformed? {
        return Settling(envelope, Reject);
      }
      if envelope.Direct? {
        if envelope.message.None? {
          return Settling(envelope, Reject);
        }
        if fault {
          return Settling(envelope, Requeue);
        }
        var answer := Accept(envelope.message.value, envelope.options, now, id, createdAt);
        if !answer.Accepted? {
          return Settling(envelope, Reject);
        }
        return Settling(envelope, Ack);
      }
      if fault {
        return Settling(envelope, Requeue);
      }
      var claim := table.Claim(envelope.id, channel, now, LEASE, token, hidden);
      if claim.NotFound? {
        return Settling(envelope, Reject);
      }
      if claim.NotClaimable? {
        return Settling(envelope, Ack);
      }
      return Pc.Claimed(envelope, claim.outbox);
    }

    /** handleDelivery from the provider's answer on: update the copy, finish, choose the settlement. */
    method CompleteDelivery(claimed: Row, outcome: Outcome, now: Instant, draw: nat, fault: bool) returns (verdict: Verdict)
      requires outcome.Delivered? || claimed.retryCount >= -1
      modifies table
      ensures fault ==> verdict == Requeue && table.rows == old(table.rows)
      ensures !fault ==>
                && table.rows == AfterFinish(old(table.rows), Decide(claimed, outcome, now, draw), now)
                && (verdict == Ack <==> FinishAccepted(old(table.rows), claimed, now))
                && (verdict == Ack || verdict == Requeue)
      ensures verdict == Ack <==>
                && !fault && claimed.id in old(table.rows) && old(table.rows)[claimed.id].state == Sending
                && old(table.rows)[claimed.id].leaseToken == claimed.leaseToken
                && old(table.rows)[claimed.id].leaseUntil.Some? && now < old(table.rows)[claimed.id].leaseUntil.value
      ensures verdict != Ack ==> table.rows == old(table.rows)
      ensures verdict == Ack ==>
                && claimed.id in table.rows && table.rows == old(table.rows)[claimed.id := table.rows[claimed.id]]
                && var row := table.rows[claimed.id];
                   && row.leaseToken == NO_TOKEN && row.leaseUntil.None? && row.dispatchAfter.None?
                   && row.attempts == claimed.attempts && row.retryCount == claimed.retryCount
                   && row.state == (if outcome.Delivered? then Sent
                                    else if (claimed.maxRetries >= 0 && claimed.retryCount >= claimed.maxRetries)
                                            || (claimed.retryDeadline.Some? && claimed.retryDeadline.value <= now)
                                    then Dead else Failed)
                   && (row.state == Sent ==> row.sentAt == Some(now) && row.lastError == "")
                   && (row.state != Sent ==>
                         && row.sentAt == claimed.sentAt
                         && row.lastError == if outcome.Rejected? then outcome.error else "invalid stored message")
                   && (row.state == Failed ==>
                         row.nextRetryAt.Some? && WaitFits(claimed.retryCount + 1, row.nextRetryAt.value - now))
                   && (row.state != Failed ==> row.nextRetryAt.None?)
    {
      var outbox := claimed;
      if outcome.Delivered? {
        outbox := outbox.(state := Sent);
      } else {
        outbox := outbox.(lastError := "invalid stored message");
        if outcome.Rejected? {
          outbox := outbox.(lastError := outcome.error);
        }
        outbox := outbox.(state := Failed);
        RetryDelayRange(outbox.retryCount + 1);
        var next := now + DurationJitter(RetryDelay(outbox.retryCount + 1), draw);
        outbox := outbox.(nextRetryAt := Some(next));
        if RetryLimitReached(outbox) || (outbox.retryDeadline.Some? && now >= outbox.retryDeadline.value) {
          outbox := outbox.(state := Dead);
        }
      }
      assert outbox == Decide(claimed, outcome, now, draw);
      if !outcome.Delivered? { FailureDecided(claimed, outcome, now, draw); }
      hide Decide, WaitFits, DurationJitter, RetryDelay;
      if fault {
        return Requeue;
      }
      var finished := table.Finish(outbox, now);
      return if finished then Ack else Requeue;
    }

    /** One channel of a relay pass: reserve a batch, publish its rows until one is not confirmed. */
    method RelayChannel(channel: Channel, now: Instant, locked: set<Id>, confirmed: Row -> bool) returns (published: seq<Row>)
      requires Keyed(table.rows)
      modifies table
      ensures var batch := Batch(old(table.rows), channel, now, BATCH, locked);
              var reserved := Reservations(old(table.rows), batch, now, RESERVATION);
              && table.rows == AfterReserve(old(table.rows), batch, now, RESERVATION)
              && batch == Batch(old(table.rows), channel, now, 32, locked)
              && published <= reserved
              && (forall row <- published :: confirmed(row))
              && (|published| < |reserved| ==> !confirmed(reserved[|published|]))
      ensures forall row <- published ::
                && row.id in table.rows && table.rows[row.id] == row && confirmed(row)
                && row.channel == channel && row.dispatchAfter == Some(now + 10 * SECOND)
    {
      hide Batch, AfterReserve, Reservations, ReserveRow, Exhausted, Due, Keyed;
      ReservedRows(table.rows, channel, now, locked);
      var rows := table.ReserveDispatch(channel, now, RESERVATION, BATCH, locked);
      published := [];
      for i := 0 to |rows|
        invariant published == rows[..i]
        invariant forall row <- published :: confirmed(row)
      {
        if !confirmed(rows[i]) {
          return;
        }
        assert rows[..i + 1] == rows[..i] + [rows[i]];
        published := published + [rows[i]];
      }
    }
  }

  lemma NormalFormChannel(lib: Library, m: Message, o: Options)
    ensures Canonicalise(lib, m, o).Some? ==> Canonicalise(lib, m, o).value.payload.Channel() == m.Channel()
  {
    CanonicaliseStable(lib, m, o);
  }

  lemma ReservedRows(t: Table, channel: Channel, now: Instant, locked: set<Id>)
    requires Keyed(t)
    ensures var batch := Batch(t, channel, now, BATCH, locked);
            var after := AfterReserve(t, batch, now, RESERVATION);
            forall row <- Reservations(t, batch, now, RESERVATION) ::
              row.id in after && after[row.id] == row && row.channel == channel && row.dispatchAfter == Some(now + 10 * SECOND)
  {
    var batch := Batch(t, channel, now, BATCH, locked);
    BatchPicks(t, channel, now, BATCH, locked);
    BatchSelects(t, channel, now, BATCH, locked);
    ReservationsAre(t, batch, now, RESERVATION);
    ReservedColumns(t, batch, now, RESERVATION);
    hide Batch, AfterReserve, Reservations, Distinct, InOrder, Exhausted, Keyed, Due;
  }

  // ---------- The procedures are the protocol's steps ----------

  /** What handleDelivery has done once its first transaction is over: the table it leaves and where it stands. */
  ghost function Begun(lib: Library, t: Table, stopping: bool, channel: Channel, e: Envelope, now: Instant, maxAge: Duration,
                       id: Id, createdAt: Instant, token: Token, hidden: bool, fault: bool): (Table, Pc)
  {
    if stopping then (t, Settling(e, Requeue))
    else if e.Malformed? || (e.Direct? && e.message.None?) then (t, Settling(e, Reject))
    else if fault then (t, Settling(e, Requeue))
    else if e.Direct? then
      var candidate := Candidate(lib, e.message.value, e.options, now, maxAge, id, createdAt);
      (if candidate.None? then t else AfterCreate(t, candidate.value),
       Settling(e, if AcceptAnswer(t, candidate).Accepted? then Ack else Reject))
    else
      (AfterClaim(t, e.id, channel, now, LEASE, token, hidden),
       match ClaimAnswer(t, e.id, channel, now, LEASE, token, hidden)
       case NotFound => Settling(e, Reject)
       case NotClaimable => Settling(e, Ack)
       case Claimed(outbox) => Pc.Claimed(e, outbox))
  }

  /** The protocol step a worker takes on a delivery. */
  function FirstStep(w: WorkerId, stopping: bool, channel: Channel, e: Envelope, now: Instant, maxAge: Duration, id: Id,
                     createdAt: Instant, token: Token, hidden: bool, fault: bool): Protocol.Step
  {
    if stopping || e.Malformed? || (e.Direct? && e.message.None?) then Step.Refuse(w, e, stopping)
    else if e.Direct? then Step.Ingest(w, e, now, maxAge, id, createdAt, fault)
    else Step.Claim(w, channel, e, now, token, hidden, fault)
  }

  /** BeginDelivery is the first protocol step of a worker, on every system with that table. */
  lemma BegunIsStep(lib: Library, s: System, w: WorkerId, stopping: bool, channel: Channel, e: Envelope, now: Instant,
                    maxAge: Duration, id: Id, createdAt: Instant, token: Token, hidden: bool, fault: bool)
    requires PcOf(s, w).Idle? && id !in s.rows && token !in s.tokens && token != NO_TOKEN
    ensures var step := FirstStep(w, stopping, channel, e, now, maxAge, id, createdAt, token, hidden, fault);
            && Possible(s, step)
            && (Next(lib, s, step).rows, PcOf(Next(lib, s, step), w))
               == Begun(lib, s.rows, stopping, channel, e, now, maxAge, id, createdAt, token, hidden, fault)
  {
    hide Recorded, Candidate, AfterCreate, AfterClaim, CreateAnswer, ClaimAnswer;
  }

  /** Accept is the Submit step of whoever sends a message. */
  lemma AcceptIsStep(lib: Library, s: System, m: Message, o: Options, now: Instant, maxAge: Duration, id: Id, createdAt: Instant)
    requires id !in s.rows
    ensures var step := Step.Submit(m, o, now, maxAge, id, createdAt);
            var candidate := Candidate(lib, m, o, now, maxAge, id, createdAt);
            && Possible(s, step)
            && Next(lib, s, step).rows == (if candidate.None? then s.rows else AfterCreate(s.rows, candidate.value))
            && (AcceptAnswer(s.rows, candidate).Accepted? ==>
                  exists a <- Next(lib, s, step).accepted ::
                    a.channel == m.Channel() && a.key == o.key && a.id == AcceptAnswer(s.rows, candidate).id)
  {
    hide Recorded, AfterCreate, Canonicalise, AcceptAnswer;
    var candidate := Candidate(lib, m, o, now, maxAge, id, createdAt);
    if AcceptAnswer(s.rows, candidate).Accepted? {
      AcceptedHasCandidate(s.rows, candidate);
      var a := Acceptance(m.Channel(), o.key, Canonicalise(lib, m, o).value, AcceptAnswer(s.rows, candidate).id);
      assert a in Next(lib, s, Step.Submit(m, o, now, maxAge, id, createdAt)).accepted;
    }
  }

  lemma AcceptedHasCandidate(t: Table, candidate: Option<Row>)
    requires AcceptAnswer(t, candidate).Accepted?
    ensures candidate.Some?
  {
  }

  /** CompleteDelivery is the Finish step of the worker that holds the copy. */
  lemma CompletionIsStep(lib: Library, s: System, w: WorkerId, now: Instant, draw: nat, fault: bool)
    requires Possible(s, Step.Finish(w, now, draw, fault))
    ensures var claimed, outcome := PcOf(s, w).outbox, PcOf(s, w).outcome;
            var s' := Next(lib, s, Step.Finish(w, now, draw, fault));
            && s'.rows == (if fault then s.rows else AfterFinish(s.rows, Decide(claimed, outcome, now, draw), now))
            && PcOf(s', w) == Settling(PcOf(s, w).envelope, if !fault && FinishAccepted(s.rows, claimed, now) then Ack else Requeue)
  {
    hide Recorded, AfterFinish;
  }

  /** RelayChannel is the Reserve step; what it publishes afterwards changes no row. */
  lemma RelayIsStep(lib: Library, s: System, channel: Channel, now: Instant, locked: set<Id>)
    requires Keyed(s.rows)
    ensures var step := Step.Reserve(channel, now, locked);
            && Possible(s, step)
            && Next(lib, s, step).rows == AfterReserve(s.rows, Batch(s.rows, channel, now, BATCH, locked), now, RESERVATION)
  {
    hide Recorded, AfterReserve, Batch;
  }

  /**
   * Publication may fail, be lost or come twice: a reserved row is due again exactly when its
   * reservation lapses, whether or not its notification went out.
   */
  lemma ReservationLapses(row: Row, now: Instant, later: Instant)
    requires Due(row, now) && !Exhausted(row, now)
    ensures Due(ReserveRow(row, now, RESERVATION), later) <==> now + RESERVATION <= later
  {
  }
}
