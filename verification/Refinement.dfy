/**
 * Every step of the protocol acts on each row as at most one operation of the row machine. The
 * hard case is Finish, which writes back a whole private copy: the copy is never stale where the
 * fence lets it through. The invariants proved here hold in every run.
 */
module Refinement {
  import opened Base
  import opened Messages
  import opened Outbox
  import opened Retry
  import opened Submission
  import opened Repository
  import opened RowMachine
  import opened Protocol

  // ---------- Invariants ----------

  ghost predicate TokensDistinct(h: History) {
    forall i, j :: 0 <= i < j < |h| && StartsAttempt(h, i) && StartsAttempt(h, j) ==> h[i].op.token != h[j].op.token
  }

  /** The record of one row is a valid history that ends in the stored row. */
  ghost predicate Recounts(h: History, row: Row, id: Id, tokens: set<Token>, delivered: set<Token>, latest: Instant) {
    && Valid(h) && Last(h) == row && row.id == id
    && ClaimTokens(h) <= tokens && TokensDistinct(h)
    && (forall e <- h :: Reading(e.op) <= latest)
    && (forall e <- h :: e.op.Finish? && e.op.outcome.Delivered? ==> e.op.token in delivered)
  }

  ghost predicate RowsOk(s: System) {
    && s.history.Keys == s.rows.Keys
    && forall id <- s.rows :: Recounts(s.history[id], s.rows[id], id, s.tokens, s.delivered, s.latest)
  }

  /** A lease token belongs to one row. */
  ghost predicate TokensApart(s: System) {
    forall a, b :: a in s.history && b in s.history && a != b ==> ClaimTokens(s.history[a]) !! ClaimTokens(s.history[b])
  }

  /**
   * A worker's copy: its token is one of the row's attempts, which it counts after those the row
   * came with, and as long as the stored row is still in that attempt, the copy is the stored row.
   */
  ghost predicate CopyOk(s: System, outbox: Row) {
    && outbox.id in s.rows && outbox.id in s.history
    && outbox.state == Sending && outbox.leaseUntil.Some? && outbox.retryCount == outbox.attempts - 1
    && s.history[outbox.id] != [] && s.history[outbox.id][0].row.attempts < outbox.attempts
    && outbox.leaseToken in ClaimTokens(s.history[outbox.id])
    && SameSubmission(outbox, s.rows[outbox.id])
    && (s.rows[outbox.id].state == Sending && s.rows[outbox.id].leaseToken == outbox.leaseToken
        ==> s.rows[outbox.id] == outbox)
  }

  ghost predicate CopiesOk(s: System) {
    forall w <- s.workers :: s.workers[w].HoldsCopy() ==> CopyOk(s, s.workers[w].outbox)
  }

  ghost predicate CopiesApart(s: System) {
    forall v, w :: v in s.workers && w in s.workers && v != w && s.workers[v].HoldsCopy() && s.workers[w].HoldsCopy()
      ==> s.workers[v].outbox.leaseToken != s.workers[w].outbox.leaseToken
  }

  // ---------- The refinement ----------

  /** From `t` to `t'` every row takes at most the one operation, and new rows start properly. */
  ghost predicate Rowwise(t: Table, t': Table, op: RowOp) {
    && (forall id <- t :: id in t' && (t[id] == t'[id] || (Enabled(t[id], op) && t'[id] == RowMachine.Step(t[id], op))))
    && (forall id <- t' :: id !in t ==> t'[id].id == id && Starts(Entry(op, t'[id])))
  }

  /** Writing back the transition columns of a completed copy onto the row it was copied from. */
  lemma OverwriteCompletes(row: Row, outcome: Outcome, now: Instant, draw: nat)
    requires outcome.Delivered? || row.retryCount >= -1
    ensures Decide(row, outcome, now, draw).id == row.id
    ensures Decide(row, outcome, now, draw).leaseToken == row.leaseToken
    ensures Updates(row, TransitionValues(Completion(Decide(row, outcome, now, draw), now)))
         == Completion(Decide(row, outcome, now, draw), now)
  {
  }

  /**
   * Finish loses nothing. It overwrites every transition column from a copy that may be old, yet
   * when its guard holds the stored row is that very copy, so the write is exactly the completion
   * of the stored row; when the guard fails the table is unchanged.
   */
  lemma FinishLossless(s: System, outbox: Row, outcome: Outcome, now: Instant, draw: nat)
    requires CopyOk(s, outbox) && (outcome.Delivered? || outbox.retryCount >= -1)
    ensures var decided := Decide(outbox, outcome, now, draw);
            var op := RowOp.Finish(now, outbox.leaseToken, outcome, draw);
            if FinishAccepted(s.rows, decided, now)
            then && s.rows[outbox.id] == outbox && Enabled(outbox, op)
                 && AfterFinish(s.rows, decided, now) == s.rows[outbox.id := RowMachine.Step(outbox, op)]
            else AfterFinish(s.rows, decided, now) == s.rows
  {
    OverwriteCompletes(outbox, outcome, now, draw);
  }

  lemma ReserveRowwise(t: Table, channel: Channel, now: Instant, locked: set<Id>)
    requires Keyed(t)
    ensures var t' := AfterReserve(t, Batch(t, channel, now, BATCH, locked), now, RESERVATION);
            t'.Keys == t.Keys && Rowwise(t, t', RowOp.Reserve(now))
  {
    var batch := Batch(t, channel, now, BATCH, locked);
    BatchPicks(t, channel, now, BATCH, locked);
    AfterReserveAt(t, batch, now, RESERVATION);
  }

  lemma CreateRowwise(t: Table, c: Canonical, key: string, now: Instant, maxAge: Duration, id: Id, createdAt: Instant)
    requires id !in t && c.maxRetries >= -1
    ensures var row := NewOutbox(c, key, now, maxAge).(id := id, createdAt := createdAt);
            Rowwise(t, AfterCreate(t, row), RowOp.Insert(now))
  {
  }

  lemma ClaimRowwise(t: Table, id: Id, channel: Channel, now: Instant, token: Token, hidden: bool)
    requires token != NO_TOKEN
    ensures Rowwise(t, AfterClaim(t, id, channel, now, LEASE, token, hidden), RowOp.Claim(now, token))
  {
  }

  lemma SameRowwise(t: Table, op: RowOp)
    ensures Rowwise(t, t, op)
  {
  }

  lemma FinishRowwise(s: System, outbox: Row, outcome: Outcome, now: Instant, draw: nat)
    requires CopyOk(s, outbox) && (outcome.Delivered? || outbox.retryCount >= -1)
    ensures Rowwise(s.rows, AfterFinish(s.rows, Decide(outbox, outcome, now, draw), now),
                    RowOp.Finish(now, outbox.leaseToken, outcome, draw))
  {
    FinishLossless(s, outbox, outcome, now, draw);
  }

  lemma AcceptRowwise(lib: Library, s: System, m: Message, o: Options, now: Instant, maxAge: Duration, id: Id, createdAt: Instant)
    requires id !in s.rows
    ensures var s' := Accept(lib, s, m, o, now, maxAge, id, createdAt);
            && Rowwise(s.rows, s'.rows, RowOp.Insert(now))
            && (s' == s || s'.history == Recorded(s.history, s.rows, s'.rows, RowOp.Insert(now)))
  {
    LimitNormal(lib, m, o);
    hide Canonicalise, NewOutbox, AfterCreate, CreateAnswer, Rowwise, Recorded;
    match Canonicalise(lib, m, o)
    case None => SameRowwise(s.rows, RowOp.Insert(now));
    case Some(c) => CreateRowwise(s.rows, c, o.key, now, maxAge, id, createdAt);
  }

  lemma LimitNormal(lib: Library, m: Message, o: Options)
    ensures Canonicalise(lib, m, o).Some? ==> Canonicalise(lib, m, o).value.maxRetries >= -1
  {
  }

  /** Each protocol step refines at most one row-machine operation on every row. */
  lemma StepRowwise(lib: Library, s: System, step: Protocol.Step)
    requires RowsOk(s) && CopiesOk(s) && Possible(s, step)
    ensures Rowwise(s.rows, Next(lib, s, step).rows, OpOf(s, step))
    ensures var s' := Next(lib, s, step);
            || s'.history == Recorded(s.history, s.rows, s'.rows, OpOf(s, step))
            || (s'.rows == s.rows && s'.history == s.history)
  {
    SameRowwise(s.rows, OpOf(s, step));
    match step
    case Submit(m, o, now, maxAge, id, createdAt) =>
      AcceptRowwise(lib, s, m, o, now, maxAge, id, createdAt);
    case Ingest(_, e, now, maxAge, id, createdAt, fault) =>
      if !fault { AcceptRowwise(lib, s, e.message.value, e.options, now, maxAge, id, createdAt); }
    case Claim(_, channel, e, now, token, hidden, fault) =>
      if !fault { ClaimRowwise(s.rows, e.id, channel, now, token, hidden); }
    case Finish(w, now, draw, fault) =>
      if !fault {
        var pc := PcOf(s, w);
        FinishRowwise(s, pc.outbox, pc.outcome, now, draw);
      }
    case Reserve(channel, now, locked) =>
      ReserveRowwise(s.rows, channel, now, locked);
    case _ =>
  }
}
