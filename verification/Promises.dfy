/** Identity of submissions and what a settlement promises, kept by every step. */
module Promises {
  import opened Base
  import opened Messages
  import opened Outbox
  import opened Retry
  import opened Submission
  import opened Repository
  import opened RowMachine
  import opened Protocol
  import opened Refinement
  import opened Invariants

  // ---------- Identity ----------

  /** The row a submission was answered with carries its channel, key and content. */
  ghost predicate Answered(t: Table, a: Acceptance) {
    a.id in t && t[a.id].channel == a.channel && t[a.id].messageId == a.key && t[a.id].fingerprint == Digest(a.content)
  }

  ghost predicate IdentityOk(s: System) {
    && UniqueKeys(s.rows)
    && (forall id <- s.rows :: Faithful(s.rows[id]))
    && (forall a <- s.accepted :: Answered(s.rows, a))
  }

  /** No step alters a column that was fixed at insertion, or removes a row. */
  lemma SubmissionsStay(t: Table, t': Table, op: RowOp)
    requires Rowwise(t, t', op)
    ensures forall id <- t :: id in t' && SameSubmission(t'[id], t[id])
  {
    forall id <- t
      ensures id in t' && SameSubmission(t'[id], t[id])
    {
      if t[id] != t'[id] { StepAndToken(t[id], op); }
    }
  }

  lemma IdentityOfOldRows(t: Table, t': Table)
    requires UniqueKeys(t) && t'.Keys == t.Keys && forall id <- t :: SameSubmission(t'[id], t[id])
    ensures UniqueKeys(t')
    ensures (forall id <- t :: Faithful(t[id])) ==> forall id <- t' :: Faithful(t'[id])
  {
  }

  lemma CreateKeepsKeys(t: Table, row: Row)
    requires UniqueKeys(t) && row.id !in t
    ensures UniqueKeys(AfterCreate(t, row))
    ensures forall id <- t :: id in AfterCreate(t, row) && AfterCreate(t, row)[id] == t[id]
    ensures forall id <- AfterCreate(t, row) :: id !in t ==> id == row.id && AfterCreate(t, row)[id] == row
  {
    var t' := AfterCreate(t, row);
    if exists id :: Conflicts(t, id, row) { return; }
    assert forall id <- t :: !Conflicts(t, id, row);
    forall a, b | a in t' && b in t' && t'[a].messageId != "" && t'[a].channel == t'[b].channel && t'[a].messageId == t'[b].messageId
      ensures a == b
    {
    }
  }

  /**
   * Create, in the columns of the table: a row without a key is always inserted; a keyed row is
   * inserted exactly when no stored row has its channel and key; and otherwise nothing is written and
   * the stored row decides, as the answer if it has the same fingerprint and as a conflict if not.
   */
  lemma CreateDecides(t: Table, row: Row)
    requires UniqueKeys(t) && row.id !in t
    ensures row.id in AfterCreate(t, row)
       <==> row.messageId == "" || forall k <- t :: t[k].channel != row.channel || t[k].messageId != row.messageId
    ensures row.id in AfterCreate(t, row) ==> AfterCreate(t, row) == t[row.id := row] && CreateAnswer(t, row) == Stored(row)
    ensures row.id !in AfterCreate(t, row) ==> AfterCreate(t, row) == t
    ensures CreateAnswer(t, row).IdempotencyConflict?
       <==> row.messageId != "" && exists k <- t :: t[k].channel == row.channel && t[k].messageId == row.messageId
                                                  && (t[k].fingerprint == Unset || t[k].fingerprint != row.fingerprint)
    ensures forall k <- t | row.messageId != "" && t[k].channel == row.channel && t[k].messageId == row.messageId
              && t[k].fingerprint == row.fingerprint != Unset :: CreateAnswer(t, row) == Stored(t[k])
  {
    if k :| Conflicts(t, k, row) {
      assert forall j <- t :: Conflicts(t, j, row) ==> j == k;
    } else {
      assert forall j <- t :: !Conflicts(t, j, row);
      assert row.id in t[row.id := row];
    }
  }

  /** Whatever Create answers is a stored row with the submission's channel, key and fingerprint. */
  lemma CreateAnswers(t: Table, row: Row)
    requires Keyed(t) && UniqueKeys(t) && row.id !in t && row.fingerprint != Unset
    ensures CreateAnswer(t, row).Stored? ==>
              var k := CreateAnswer(t, row).row.id;
              && k in AfterCreate(t, row) && CreateAnswer(t, row).row == AfterCreate(t, row)[k]
              && AfterCreate(t, row)[k].channel == row.channel && AfterCreate(t, row)[k].messageId == row.messageId
              && AfterCreate(t, row)[k].fingerprint == row.fingerprint
    ensures CreateAnswer(t, row).IdempotencyConflict? ==>
              && AfterCreate(t, row) == t && row.messageId != ""
              && exists k <- t :: t[k].channel == row.channel && t[k].messageId == row.messageId && t[k].fingerprint != row.fingerprint
  {
  }

  /** The candidate carries the submission, as the library's normal form of it. */
  lemma CandidateCarries(lib: Library, m: Message, o: Options, now: Instant, maxAge: Duration, id: Id, createdAt: Instant)
    requires Candidate(lib, m, o, now, maxAge, id, createdAt).Some?
    ensures Canonicalise(lib, m, o).Some?
    ensures var row := Candidate(lib, m, o, now, maxAge, id, createdAt).value;
            && row.id == id && row.channel == m.Channel() && row.messageId == o.key
            && row.fingerprint == Digest(Canonicalise(lib, m, o).value) && Faithful(row)
  {
    CanonicaliseStable(lib, m, o);
  }

  lemma AcceptedStays(t: Table, t': Table, a: Acceptance)
    requires Answered(t, a) && forall k <- t :: k in t' && t'[k] == t[k]
    ensures Answered(t', a)
  {
  }

  lemma IdentityExtended(s: System, s': System, row: Row, answers: seq<Acceptance>)
    requires IdentityOk(s) && UniqueKeys(s'.rows) && Faithful(row)
    requires forall id <- s.rows :: id in s'.rows && s'.rows[id] == s.rows[id]
    requires forall id <- s'.rows :: id !in s.rows ==> s'.rows[id] == row
    requires s'.accepted == s.accepted + answers && forall a <- answers :: Answered(s'.rows, a)
    ensures IdentityOk(s')
  {
    hide UniqueKeys, Faithful;
    forall a <- s.accepted
      ensures Answered(s'.rows, a)
    {
      AcceptedStays(s.rows, s'.rows, a);
    }
  }

  /** What Accept does to the table and the record of answers, in terms of Create. */
  lemma AcceptIs(lib: Library, s: System, m: Message, o: Options, now: Instant, maxAge: Duration, id: Id, createdAt: Instant)
    ensures var s' := Accept(lib, s, m, o, now, maxAge, id, createdAt);
            var candidate := Candidate(lib, m, o, now, maxAge, id, createdAt);
            if candidate.None? then s'.rows == s.rows && s'.accepted == s.accepted
            else && s'.rows == AfterCreate(s.rows, candidate.value)
                 && s'.accepted == s.accepted + match CreateAnswer(s.rows, candidate.value)
                      case Stored(row) => [Acceptance(m.Channel(), o.key, Canonicalise(lib, m, o).value, row.id)]
                      case IdempotencyConflict => []
  {
  }

  lemma AcceptIdentity(lib: Library, s: System, m: Message, o: Options, now: Instant, maxAge: Duration, id: Id, createdAt: Instant)
    requires RowsOk(s) && IdentityOk(s) && id !in s.rows
    ensures IdentityOk(Accept(lib, s, m, o, now, maxAge, id, createdAt))
    ensures var a := AcceptAnswer(s.rows, Candidate(lib, m, o, now, maxAge, id, createdAt));
            a.Accepted? ==> && Canonicalise(lib, m, o).Some?
                            && Acceptance(m.Channel(), o.key, Canonicalise(lib, m, o).value, a.id)
                               in Accept(lib, s, m, o, now, maxAge, id, createdAt).accepted
    ensures forall k <- s.rows :: k in Accept(lib, s, m, o, now, maxAge, id, createdAt).rows
                                  && Accept(lib, s, m, o, now, maxAge, id, createdAt).rows[k] == s.rows[k]
  {
    var candidate := Candidate(lib, m, o, now, maxAge, id, createdAt);
    AcceptIs(lib, s, m, o, now, maxAge, id, createdAt);
    if candidate.Some? {
      CandidateCarries(lib, m, o, now, maxAge, id, createdAt);
      KeyedRows(s);
      hide Accept, Candidate, Canonicalise, AfterCreate, CreateAnswer, UniqueKeys, Faithful, RowsOk;
      CreateKeepsKeys(s.rows, candidate.value);
      CreateAnswers(s.rows, candidate.value);
      var s' := Accept(lib, s, m, o, now, maxAge, id, createdAt);
      var answers := match CreateAnswer(s.rows, candidate.value)
        case Stored(row) => [Acceptance(m.Channel(), o.key, Canonicalise(lib, m, o).value, row.id)]
        case IdempotencyConflict => [];
      IdentityExtended(s, s', candidate.value, answers);
      hide IdentityOk;
    }
  }

  lemma KeyedRows(s: System)
    requires RowsOk(s)
    ensures Keyed(s.rows)
  {
    forall id <- s.rows
      ensures s.rows[id].id == id
    {
      assert Recounts(s.history[id], s.rows[id], id, s.tokens, s.delivered, s.latest);
    }
  }

  /** Only submissions insert rows or are answered. */
  lemma OnlySubmissionsInsert(lib: Library, s: System, step: Protocol.Step)
    requires Possible(s, step) && !step.Submit? && !step.Ingest?
    ensures Next(lib, s, step).rows.Keys == s.rows.Keys && Next(lib, s, step).accepted == s.accepted
  {
    if step.Reserve? {
      AfterReserveAt(s.rows, Batch(s.rows, step.channel, step.now, BATCH, step.locked), step.now, RESERVATION);
    }
  }

  lemma IdentityKept(lib: Library, s: System, step: Protocol.Step)
    requires RowsOk(s) && CopiesOk(s) && OutcomesOk(s) && IdentityOk(s) && Possible(s, step)
    ensures IdentityOk(Next(lib, s, step))
  {
    if step.Submit? || step.Ingest? {
      hide Accept, UniqueKeys, Faithful, Canonicalise, RowsOk, CopiesOk;
      if step.Submit? {
        AcceptIdentity(lib, s, step.message, step.options, step.now, step.maxAge, step.id, step.createdAt);
      } else if !step.fault {
        AcceptIdentity(lib, s, step.envelope.message.value, step.envelope.options, step.now, step.maxAge, step.id, step.createdAt);
      }
    } else {
      OldRowsKeepIdentity(lib, s, step);
    }
  }

  lemma OldRowsKeepIdentity(lib: Library, s: System, step: Protocol.Step)
    requires RowsOk(s) && CopiesOk(s) && OutcomesOk(s) && IdentityOk(s) && Possible(s, step) && !step.Submit? && !step.Ingest?
    ensures IdentityOk(Next(lib, s, step))
  {
    hide Next, RowMachine.Step, Enabled, Starts, RowsOk, CopiesOk, OutcomesOk, UniqueKeys, Faithful;
    StepOrderly(lib, s, step);
    OnlySubmissionsInsert(lib, s, step);
    SubmissionsStay(s.rows, Next(lib, s, step).rows, OpOf(s, step));
    IdentityOfOldRows(s.rows, Next(lib, s, step).rows);
  }

  // ---------- Settlements ----------

  /** What an acknowledgement promises: the submission is on record, the notified row exists. */
  ghost predicate Promised(lib: Library, s: System, e: Envelope, verdict: Verdict) {
    verdict.Ack? ==>
      match e
      case Malformed => false
      case Direct(m, o) =>
        m.Some? && exists a <- s.accepted ::
          a.channel == m.value.Channel() && a.key == o.key && Canonicalise(lib, m.value, o) == Some(a.content)
      case Notice(id) => id in s.rows
  }

  ghost predicate SettledOk(lib: Library, s: System) {
    && (forall x <- s.settled :: Promised(lib, s, x.envelope, x.verdict))
    && (forall w <- s.workers :: s.workers[w].Settling? ==> Promised(lib, s, s.workers[w].envelope, s.workers[w].verdict))
    && (forall w <- s.workers :: s.workers[w].HoldsCopy() ==> s.workers[w].envelope == Notice(s.workers[w].outbox.id))
  }

  /** Rows and answers only accumulate. */
  lemma RecordGrows(lib: Library, s: System, step: Protocol.Step)
    requires RowsOk(s) && CopiesOk(s) && OutcomesOk(s) && Possible(s, step)
    ensures s.rows.Keys <= Next(lib, s, step).rows.Keys
    ensures forall a <- s.accepted :: a in Next(lib, s, step).accepted
  {
    StepOrderly(lib, s, step);
    if !step.Submit? && !step.Ingest? { OnlySubmissionsInsert(lib, s, step); }
  }

  lemma PromiseKept(lib: Library, s: System, step: Protocol.Step, e: Envelope, verdict: Verdict)
    requires RowsOk(s) && CopiesOk(s) && OutcomesOk(s) && Possible(s, step) && Promised(lib, s, e, verdict)
    ensures Promised(lib, Next(lib, s, step), e, verdict)
  {
    RecordGrows(lib, s, step);
    hide Next, Canonicalise;
  }

  lemma IngestPromises(lib: Library, s: System, step: Protocol.Step)
    requires RowsOk(s) && IdentityOk(s) && Possible(s, step) && step.Ingest?
    ensures var pc := PcOf(Next(lib, s, step), step.worker);
            pc.Settling? && Promised(lib, Next(lib, s, step), pc.envelope, pc.verdict)
  {
    if !step.fault {
      var m, o := step.envelope.message.value, step.envelope.options;
      AcceptIdentity(lib, s, m, o, step.now, step.maxAge, step.id, step.createdAt);
      hide Accept, IdentityOk, RowsOk, Canonicalise, AcceptAnswer, Candidate;
    }
  }

  /** The worker a step moves into Settling promises no more than it has on record. */
  lemma PromiseMade(lib: Library, s: System, step: Protocol.Step)
    requires RowsOk(s) && CopiesOk(s) && OutcomesOk(s) && IdentityOk(s) && SettledOk(lib, s) && Possible(s, step)
    requires WorkerOf(step).Some? && PcOf(Next(lib, s, step), step.worker).Settling?
    ensures var pc := PcOf(Next(lib, s, step), step.worker); Promised(lib, Next(lib, s, step), pc.envelope, pc.verdict)
  {
    if step.Ingest? {
      IngestPromises(lib, s, step);
    } else if step.Finish? {
      FinishPromises(lib, s, step);
    } else {
      PlainPromises(lib, s, step);
    }
  }

  lemma PlainPromises(lib: Library, s: System, step: Protocol.Step)
    requires Possible(s, step) && WorkerOf(step).Some? && !step.Ingest? && !step.Finish?
    requires PcOf(Next(lib, s, step), step.worker).Settling?
    ensures var pc := PcOf(Next(lib, s, step), step.worker); Promised(lib, Next(lib, s, step), pc.envelope, pc.verdict)
  {
    hide Accept, Canonicalise, Recorded, ClaimRow;
  }

  lemma FinishPromises(lib: Library, s: System, step: Protocol.Step)
    requires CopiesOk(s) && SettledOk(lib, s) && Possible(s, step) && step.Finish?
    ensures var pc := PcOf(Next(lib, s, step), step.worker); Promised(lib, Next(lib, s, step), pc.envelope, pc.verdict)
  {
    assert CopyOk(s, s.workers[step.worker].outbox);
    assert s.workers[step.worker].envelope == Notice(s.workers[step.worker].outbox.id);
    hide CopyOk, CopiesOk, SettledOk, Decide, Recorded, Updates, TransitionValues;
  }

  lemma EnvelopeKept(lib: Library, s: System, step: Protocol.Step, w: WorkerId)
    requires RowsOk(s) && CopiesOk(s) && OutcomesOk(s) && SettledOk(lib, s) && Possible(s, step)
    requires PcOf(Next(lib, s, step), w).HoldsCopy()
    ensures PcOf(Next(lib, s, step), w).envelope == Notice(PcOf(Next(lib, s, step), w).outbox.id)
  {
    if WorkerOf(step) != Some(w) {
      hide Next, RowsOk, CopiesOk, OutcomesOk, Promised;
      OthersStay(lib, s, step, w);
      assert s.workers[w].HoldsCopy();
    } else if step.Claim? {
      hide CopiesOk, OutcomesOk, Promised, SettledOk;
      KeyedRows(s);
      ClaimHandsOut(lib, s, step);
      hide Next, RowsOk;
    } else {
      hide RowsOk, CopiesOk, OutcomesOk, Promised, Accept;
      assert s.workers[w].HoldsCopy();
    }
  }

  lemma SettledKept(lib: Library, s: System, step: Protocol.Step)
    requires RowsOk(s) && CopiesOk(s) && OutcomesOk(s) && IdentityOk(s) && SettledOk(lib, s) && Possible(s, step)
    ensures SettledOk(lib, Next(lib, s, step))
  {
    var s' := Next(lib, s, step);
    SettledLog(lib, s, step);
    forall x <- s'.settled
      ensures Promised(lib, s', x.envelope, x.verdict)
    {
      PromiseKept(lib, s, step, x.envelope, x.verdict);
    }
    forall w <- s'.workers | s'.workers[w].Settling?
      ensures Promised(lib, s', s'.workers[w].envelope, s'.workers[w].verdict)
    {
      if WorkerOf(step) == Some(w) {
        PromiseMade(lib, s, step);
      } else {
        OthersStay(lib, s, step, w);
        PromiseKept(lib, s, step, s.workers[w].envelope, s.workers[w].verdict);
      }
    }
    forall w <- s'.workers | s'.workers[w].HoldsCopy()
      ensures s'.workers[w].envelope == Notice(s'.workers[w].outbox.id)
    {
      EnvelopeKept(lib, s, step, w);
    }
  }

  lemma SettledLog(lib: Library, s: System, step: Protocol.Step)
    requires SettledOk(lib, s) && Possible(s, step)
    ensures forall x <- Next(lib, s, step).settled :: Promised(lib, s, x.envelope, x.verdict)
  {
    if step.Settle? {
      var pc := s.workers[step.worker];
      assert Next(lib, s, step).settled == s.settled + [Settlement(pc.envelope, pc.verdict)];
    } else {
      assert Next(lib, s, step).settled == s.settled;
    }
  }
}
