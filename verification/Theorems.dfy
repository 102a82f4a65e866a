/** What holds in every run of the protocol. */
module Theorems {
  import opened Base
  import opened Messages
  import opened Outbox
  import opened Retry
  import opened Submission
  import opened Repository
  import opened RowMachine
  import opened RowLaws
  import opened Protocol
  import opened Refinement
  import opened Invariants
  import opened Promises

  ghost predicate Inv(lib: Library, s: System) {
    && RowsOk(s) && TokensApart(s) && CopiesOk(s) && CopiesApart(s) && OutcomesOk(s) && CallsOk(s) && CallersOk(s)
    && IdentityOk(s) && SettledOk(lib, s)
  }

  lemma StartInv(lib: Library, s: System)
    requires Start(s)
    ensures Inv(lib, s)
  {
    forall id <- s.rows
      ensures Recounts(s.history[id], s.rows[id], id, s.tokens, s.delivered, s.latest)
      ensures ClaimTokens(s.history[id]) == {}
    {
      RecountsNew(RowOp.Backfill, s.rows[id], s);
      assert Before([Entry(RowOp.Backfill, s.rows[id])]) == [];
    }
  }

  lemma StepInv(lib: Library, s: System, step: Protocol.Step)
    requires Inv(lib, s) && Possible(s, step)
    ensures Inv(lib, Next(lib, s, step))
  {
    hide RowsOk, TokensApart, CopiesOk, CopiesApart, OutcomesOk, CallsOk, CallersOk, IdentityOk, SettledOk, Next, Possible, Orderly;
    StepOrderly(lib, s, step);
    RowsKept(s, Next(lib, s, step), OpOf(s, step));
    TokensApartKept(s, Next(lib, s, step), OpOf(s, step));
    CopiesKept(lib, s, step);
    CopiesApartKept(lib, s, step);
    OutcomesKept(lib, s, step);
    CallsKept(lib, s, step);
    CallersKept(lib, s, step);
    IdentityKept(lib, s, step);
    SettledKept(lib, s, step);
  }

  /** The invariants hold at the end of every run. */
  lemma {:induction false} RunInv(lib: Library, s0: System, steps: seq<Protocol.Step>)
    requires Start(s0)
    ensures Inv(lib, Run(lib, s0, steps))
  {
    if steps == [] {
      StartInv(lib, s0);
    } else {
      RunInv(lib, s0, steps[..|steps| - 1]);
      hide Inv, Start, Next, Possible;
      var s, step := Run(lib, s0, steps[..|steps| - 1]), steps[|steps| - 1];
      if Possible(s, step) { StepInv(lib, s, step); }
    }
  }

  /** What a row's record starts with: how the migration left it, or its insertion. */
  predicate FirstOf(s0: System, id: Id, h: History) {
    h != [] && if id in s0.rows then h[0] == Entry(RowOp.Backfill, s0.rows[id]) else h[0].op.Insert?
  }

  /** So every row's record is a valid history: the laws of RowLaws hold of every row of every run. */
  lemma RunHistories(lib: Library, s0: System, steps: seq<Protocol.Step>, id: Id)
    requires Start(s0) && id in Run(lib, s0, steps).rows
    ensures var s := Run(lib, s0, steps);
            id in s.history && Valid(s.history[id]) && Last(s.history[id]) == s.rows[id] && TokensDistinct(s.history[id])
    ensures var s := Run(lib, s0, steps); FirstOf(s0, id, s.history[id]) && (id !in s0.rows ==> Own(s.history[id]))
  {
    RunInv(lib, s0, steps);
    FirstEntries(lib, s0, steps, id);
    var s := Run(lib, s0, steps);
    assert Recounts(s.history[id], s.rows[id], id, s.tokens, s.delivered, s.latest);
  }

  lemma {:induction false} FirstEntries(lib: Library, s0: System, steps: seq<Protocol.Step>, id: Id)
    requires Start(s0) && id in Run(lib, s0, steps).rows
    ensures id in Run(lib, s0, steps).history && FirstOf(s0, id, Run(lib, s0, steps).history[id])
  {
    hide Next, Possible, Inv;
    if steps == [] { return; }
    hide Start;
    var prefix := steps[..|steps| - 1];
    var s, step := Run(lib, s0, prefix), steps[|steps| - 1];
    RunInv(lib, s0, prefix);
    if id in s0.rows { StartRowsStay(lib, s0, prefix, id); }
    if id in s.rows { FirstEntries(lib, s0, prefix, id); }
    if Possible(s, step) { FirstStays(lib, s, step, s0, id); }
  }

  lemma StartRowsStay(lib: Library, s0: System, steps: seq<Protocol.Step>, id: Id)
    requires Start(s0) && id in s0.rows
    ensures id in Run(lib, s0, steps).rows
  {
    assert [] + steps == steps;
    RowsPersist(lib, s0, [], steps, id);
  }

  lemma FirstStays(lib: Library, s: System, step: Protocol.Step, s0: System, id: Id)
    requires Inv(lib, s) && Possible(s, step) && id in Next(lib, s, step).rows
    requires if id in s.rows then id in s.history && FirstOf(s0, id, s.history[id]) else id !in s0.rows
    ensures id in Next(lib, s, step).history && FirstOf(s0, id, Next(lib, s, step).history[id])
  {
    StepOrderly(lib, s, step);
    if id in s.rows {
      FirstKept(s, Next(lib, s, step), OpOf(s, step), id);
    } else {
      OnlyInsertsAdd(lib, s, step);
    }
    hide Next, Possible, Recounts, CopiesOk, CallsOk, CallersOk, IdentityOk, SettledOk, TokensApart, CopiesApart, Grows, Rowwise;
  }

  lemma OnlyInsertsAdd(lib: Library, s: System, step: Protocol.Step)
    requires Possible(s, step) && Next(lib, s, step).rows.Keys != s.rows.Keys
    ensures OpOf(s, step).Insert?
  {
    if !step.Submit? && !step.Ingest? { OnlySubmissionsInsert(lib, s, step); }
  }

  /** Attempts a row came with: a migrated row may already have some, or even a negative number. */
  function CameWith(s0: System, id: Id): int {
    if id in s0.rows then s0.rows[id].attempts else 0
  }

  lemma RunKeyed(lib: Library, s0: System, steps: seq<Protocol.Step>)
    requires Start(s0)
    ensures Keyed(Run(lib, s0, steps).rows)
  {
    RunInv(lib, s0, steps);
    KeyedRows(Run(lib, s0, steps));
  }

  /** A worker's copy counts one more attempt than the row came with, at least. */
  lemma CopyCounts(lib: Library, s0: System, steps: seq<Protocol.Step>, w: WorkerId)
    requires Start(s0) && PcOf(Run(lib, s0, steps), w).HoldsCopy()
    ensures var s := Run(lib, s0, steps);
            var outbox := PcOf(s, w).outbox;
            && CopyOk(s, outbox) && outbox.id in s.rows && s.rows[outbox.id].id == outbox.id
            && CameWith(s0, outbox.id) <= outbox.retryCount
  {
    hide Start, TokensApart, CopiesApart, CallsOk, CallersOk, IdentityOk, SettledOk, RowsOk;
    var s := Run(lib, s0, steps);
    RunInv(lib, s0, steps);
    KeyedRows(s);
    assert CopyOk(s, s.workers[w].outbox);
    RunHistories(lib, s0, steps, PcOf(s, w).outbox.id);
    hide Run, Inv;
  }

  /**
   * Whoever has its provider's answer can finish, unless the attempt failed on a migrated row whose
   * retry count was so negative that the retry delay has no shift count; and relays can always reserve.
   * Elsewhere a worker can always go on, a provider may answer anything, and a crash can come anywhere
   * and changes no row.
   */
  lemma NeverBlocked(lib: Library, s0: System, steps: seq<Protocol.Step>, w: WorkerId, now: Instant, draw: nat, fault: bool,
                     channel: Channel, locked: set<Id>)
    requires Start(s0)
    ensures var s := Run(lib, s0, steps);
            PcOf(s, w).Called? && (PcOf(s, w).outcome.Delivered? || CameWith(s0, PcOf(s, w).outbox.id) >= -1)
            ==> Possible(s, Step.Finish(w, now, draw, fault))
    ensures Possible(Run(lib, s0, steps), Step.Reserve(channel, now, locked))
    ensures var s := Run(lib, s0, steps);
            && (PcOf(s, w).Claimed? ==> Possible(s, Step.Call(w, now)) && Possible(s, Step.Return(w, Undecodable, now)))
            && (PcOf(s, w).Calling? ==> forall outcome: Outcome | !outcome.Undecodable? :: Possible(s, Step.Return(w, outcome, now)))
            && (PcOf(s, w).Settling? ==> Possible(s, Step.Settle(w)))
            && Possible(s, Step.Crash(w)) && Next(lib, s, Step.Crash(w)).rows == s.rows
            && PcOf(Next(lib, s, Step.Crash(w)), w).Idle?
  {
    hide Start, Run, CopyOk, Keyed;
    RunKeyed(lib, s0, steps);
    if PcOf(Run(lib, s0, steps), w).Called? { CopyCounts(lib, s0, steps, w); }
  }

  /**
   * Finish is lossless in every run: the worker's copy may be arbitrarily old, and Finish writes
   * all its transition columns back unread; yet where the fence holds the stored row is still that
   * copy, attempt and retry counts included, and where it fails the table does not change.
   */
  lemma FinishNeverOverwrites(lib: Library, s0: System, steps: seq<Protocol.Step>, w: WorkerId, now: Instant, draw: nat)
    requires Start(s0) && Possible(Run(lib, s0, steps), Step.Finish(w, now, draw, false))
    ensures var s := Run(lib, s0, steps);
            var outbox := PcOf(s, w).outbox;
            && CameWith(s0, outbox.id) <= outbox.retryCount
            && var decided := Decide(outbox, PcOf(s, w).outcome, now, draw);
               var after := AfterFinish(s.rows, decided, now);
               if FinishAccepted(s.rows, decided, now)
               then s.rows[outbox.id] == outbox && after == s.rows[outbox.id := Completion(decided, now)]
               else after == s.rows
  {
    hide Start, Run, CopyOk;
    var s := Run(lib, s0, steps);
    CopyCounts(lib, s0, steps, w);
    FinishLossless(s, PcOf(s, w).outbox, PcOf(s, w).outcome, now, draw);
  }

  // ---------- Budget ----------

  /** Provider calls made for a row. */
  function CallsTo(calls: seq<ProviderCall>, id: Id): nat {
    if calls == [] then 0
    else CallsTo(calls[..|calls| - 1], id) + if calls[|calls| - 1].id == id then 1 else 0
  }

  lemma {:induction false} DistinctCallsFit(calls: seq<ProviderCall>, id: Id, tokens: set<Token>)
    requires forall i, j :: 0 <= i < j < |calls| ==> calls[i].token != calls[j].token
    requires forall c <- calls :: c.id == id ==> c.token in tokens
    ensures CallsTo(calls, id) <= |tokens|
  {
    if calls != [] {
      var rest, last := calls[..|calls| - 1], calls[|calls| - 1];
      if last.id == id {
        forall c <- rest | c.id == id
          ensures c.token in tokens - {last.token}
        {
          var i :| 0 <= i < |rest| && rest[i] == c;
          assert calls[i].token != last.token;
        }
        DistinctCallsFit(rest, id, tokens - {last.token});
      } else {
        DistinctCallsFit(rest, id, tokens);
      }
    }
  }

  lemma {:induction false} ClaimTokensFit(h: History)
    ensures |ClaimTokens(h)| <= Attempts(h)
  {
    if h != [] { ClaimTokensFit(Before(h)); }
  }

  /**
   * Budget over whole runs, with any number of workers, crashes, expiries and any treatment of
   * notifications, whatever the clocks say: a row accepted with retry limit m >= 0 causes at most
   * m + 1 provider calls, because each call uses up an attempt of its own. A migrated row is held
   * to the same limit, counting the attempts it came with.
   */
  lemma CallsWithinBudget(lib: Library, s0: System, steps: seq<Protocol.Step>, id: Id)
    requires Start(s0) && id in Run(lib, s0, steps).rows
    ensures var s := Run(lib, s0, steps);
            && CameWith(s0, id) + CallsTo(s.calls, id) <= s.rows[id].attempts
            && (s.rows[id].maxRetries >= 0 ==> s.rows[id].attempts <= Max(s.rows[id].maxRetries + 1, CameWith(s0, id)))
  {
    hide Start, Run, RowsOk, TokensApart, CopiesOk, CopiesApart, CallsOk, CallersOk, IdentityOk, SettledOk;
    RunInv(lib, s0, steps);
    StartsWith(lib, s0, steps, id);
    CallsCounted(Run(lib, s0, steps), id);
  }

  lemma CountsFit(h: History)
    requires Valid(h)
    ensures h[0].row.attempts + |ClaimTokens(h)| <= Last(h).attempts
    ensures Last(h).maxRetries >= 0 ==> Last(h).attempts <= Max(Last(h).maxRetries + 1, h[0].row.attempts)
  {
    HistoryInv(h);
    Conservation(h);
    ClaimTokensFit(h);
    if Last(h).maxRetries >= 0 { Budget(h); }
  }

  lemma StartsWith(lib: Library, s0: System, steps: seq<Protocol.Step>, id: Id)
    requires Start(s0) && id in Run(lib, s0, steps).rows
    ensures id in Run(lib, s0, steps).history && Run(lib, s0, steps).history[id] != []
    ensures Run(lib, s0, steps).history[id][0].row.attempts == CameWith(s0, id)
  {
    hide Run, Start;
    RunHistories(lib, s0, steps, id);
  }

  lemma CallsCounted(s: System, id: Id)
    requires RowsOk(s) && TokensApart(s) && CallsOk(s) && id in s.rows
    ensures id in s.history && s.history[id] != []
    ensures var came := s.history[id][0].row.attempts;
            && came + CallsTo(s.calls, id) <= s.rows[id].attempts
            && (s.rows[id].maxRetries >= 0 ==> s.rows[id].attempts <= Max(s.rows[id].maxRetries + 1, came))
  {
    assert Recounts(s.history[id], s.rows[id], id, s.tokens, s.delivered, s.latest);
    hide Valid, TokensDistinct, CallsOk, TokensApart;
    CountsFit(s.history[id]);
    CallsBelongToRow(s, id);
  }

  lemma CallsBelongToRow(s: System, id: Id)
    requires RowsOk(s) && TokensApart(s) && CallsOk(s) && id in s.history
    ensures CallsTo(s.calls, id) <= |ClaimTokens(s.history[id])|
  {
    DistinctCallsFit(s.calls, id, ClaimTokens(s.history[id]));
  }

  // ---------- Delivery ----------

  /** Every completion closes the attempt opened one entry earlier, under that attempt's token. */
  ghost predicate CompletionsClosed(h: History) {
    forall j {:trigger h[j]} :: 0 <= j < |h| && h[j].op.Finish?
      ==> j > 0 && StartsAttempt(h, j - 1) && h[j - 1].op.token == h[j].op.token
  }

  lemma ClosedExtend(h: History, e: Entry)
    requires CompletionsClosed(h)
    requires e.op.Finish? ==> h != [] && StartsAttempt(h, |h| - 1) && h[|h| - 1].op.token == e.op.token
    ensures CompletionsClosed(h + [e])
  {
    forall j | 0 <= j < |h + [e]| && (h + [e])[j].op.Finish?
      ensures j > 0 && StartsAttempt(h + [e], j - 1) && (h + [e])[j - 1].op.token == (h + [e])[j].op.token
    {
      if j < |h| { assert h[j].op.Finish? && StartsAttempt(h, j - 1); }
    }
  }

  lemma ClosedKept(lib: Library, s: System, step: Protocol.Step, id: Id)
    requires Inv(lib, s) && Possible(s, step) && id in Next(lib, s, step).rows
    requires id in s.rows ==> CompletionsClosed(s.history[id])
    ensures id in Next(lib, s, step).history && CompletionsClosed(Next(lib, s, step).history[id])
  {
    hide Next, TokensApart, CopiesOk, CopiesApart, CallsOk, CallersOk, IdentityOk, SettledOk, CopyOk, Valid, TokensDistinct;
    HistoryAfter(lib, s, step, id);
    if id in s.rows {
      if s.rows[id] != Next(lib, s, step).rows[id] {
        if step.Finish? {
          FinishFindsCopy(lib, s, step, id);
          assert Recounts(s.history[id], s.rows[id], id, s.tokens, s.delivered, s.latest);
          CopyIsLastClaim(s, s.rows[id]);
        }
        ClosedExtend(s.history[id], Entry(OpOf(s, step), Next(lib, s, step).rows[id]));
      }
    } else {
      OnlyInsertsAdd(lib, s, step);
    }
  }

  lemma CopyIsLastClaim(s: System, outbox: Row)
    requires RowsOk(s) && CopyOk(s, outbox) && s.rows[outbox.id] == outbox
    ensures var h := s.history[outbox.id];
            h != [] && StartsAttempt(h, |h| - 1) && h[|h| - 1].op.token == outbox.leaseToken
            && outbox.leaseUntil == Some(h[|h| - 1].op.now + LEASE)
  {
    var h := s.history[outbox.id];
    assert Recounts(h, outbox, outbox.id, s.tokens, s.delivered, s.latest);
    hide RowsOk, Recounts, TokensDistinct;
    ClaimedLast(h);
  }

  lemma {:induction false} CompletionsClose(lib: Library, s0: System, steps: seq<Protocol.Step>, id: Id)
    requires Start(s0) && id in Run(lib, s0, steps).rows
    ensures id in Run(lib, s0, steps).history && CompletionsClosed(Run(lib, s0, steps).history[id])
  {
    hide Inv, Next, Possible;
    if steps == [] { return; }
    hide Start;
    var prefix := steps[..|steps| - 1];
    var s, step := Run(lib, s0, prefix), steps[|steps| - 1];
    RunInv(lib, s0, prefix);
    if id in s.rows { CompletionsClose(lib, s0, prefix, id); }
    if Possible(s, step) { ClosedKept(lib, s, step, id); }
  }

  /** A provider took a call for this row, made under this token. */
  ghost predicate DeliveredUnder(s: System, id: Id, token: Token) {
    ProviderCall(id, token) in s.calls && token in s.delivered
  }

  lemma DeliveryOnRecord(s: System, id: Id)
    requires RowsOk(s) && TokensApart(s) && CallsOk(s) && id in s.rows && CompletionsClosed(s.history[id])
    requires s.history[id] != [] && s.history[id][0].row.state != Sent && s.rows[id].state == Sent
    ensures var h := s.history[id];
            h[|h| - 1].op.Finish? && h[|h| - 1].op.outcome.Delivered? && DeliveredUnder(s, id, h[|h| - 1].op.token)
  {
    hide RowMachine.Step, Enabled, TokensDistinct, TokensApart, CallsOk;
    var h := s.history[id];
    assert Recounts(h, s.rows[id], id, s.tokens, s.delivered, s.latest);
    SentByDelivery(h);
    var j := |h| - 1;
    assert h[j] in h && h[j].op.token in s.delivered;
    hide Valid, Recounts, RowsOk;
    InClaimTokens(h, j - 1);
    DeliveredForOwner(s, id, h[j].op.token);
  }

  /** A token under which a provider reported success was called under for the row it was issued to. */
  lemma DeliveredForOwner(s: System, id: Id, token: Token)
    requires TokensApart(s) && CallsOk(s) && id in s.history && token in ClaimTokens(s.history[id]) && token in s.delivered
    ensures DeliveredUnder(s, id, token)
  {
    var c :| c in s.calls && c.token == token;
    assert c.token in ClaimTokens(s.history[c.id]);
  }

  /**
   * A row that a run makes Sent was finished by an attempt whose own provider call, made for this
   * row under the finishing token, reported success.
   */
  lemma SentWasDelivered(lib: Library, s0: System, steps: seq<Protocol.Step>, id: Id)
    requires Start(s0) && id in Run(lib, s0, steps).rows && Run(lib, s0, steps).rows[id].state == Sent
    requires id in s0.rows ==> s0.rows[id].state != Sent
    ensures var s := Run(lib, s0, steps);
            && id in s.history && s.history[id] != []
            && var last := s.history[id][|s.history[id]| - 1];
               last.op.Finish? && last.op.outcome.Delivered? && DeliveredUnder(s, id, last.op.token)
  {
    RunInv(lib, s0, steps);
    RunHistories(lib, s0, steps, id);
    CompletionsClose(lib, s0, steps, id);
    hide Start, Run;
    DeliveryOnRecord(Run(lib, s0, steps), id);
  }

  lemma CompletionTokensDiffer(s: System, a: Id, i: nat, b: Id, j: nat)
    requires TokensApart(s) && a in s.history && b in s.history && (a != b || i < j)
    requires CompletionsClosed(s.history[a]) && CompletionsClosed(s.history[b]) && TokensDistinct(s.history[a])
    requires i < |s.history[a]| && j < |s.history[b]| && s.history[a][i].op.Finish? && s.history[b][j].op.Finish?
    ensures s.history[a][i].op.token != s.history[b][j].op.token
  {
    InClaimTokens(s.history[a], i - 1);
    InClaimTokens(s.history[b], j - 1);
  }

  /** A lease token commits at most one completion, in all the rows of a run. */
  lemma OneCompletionPerToken(lib: Library, s0: System, steps: seq<Protocol.Step>, a: Id, i: nat, b: Id, j: nat)
    requires Start(s0) && a in Run(lib, s0, steps).rows && b in Run(lib, s0, steps).rows && (a != b || i < j)
    requires var s := Run(lib, s0, steps);
             a in s.history && b in s.history && i < |s.history[a]| && j < |s.history[b]|
             && s.history[a][i].op.Finish? && s.history[b][j].op.Finish?
    ensures Run(lib, s0, steps).history[a][i].op.token != Run(lib, s0, steps).history[b][j].op.token
  {
    hide Start, Valid;
    RunInv(lib, s0, steps);
    RunHistories(lib, s0, steps, a);
    CompletionsClose(lib, s0, steps, a);
    CompletionsClose(lib, s0, steps, b);
    assert TokensApart(Run(lib, s0, steps));
    hide Run, Inv, RowsOk;
    CompletionTokensDiffer(Run(lib, s0, steps), a, i, b, j);
  }

  // ---------- Identity and acknowledgements ----------

  /** All successful submissions of one key got one row's id, and they asked for the same thing. */
  lemma SameKeySameRow(lib: Library, s0: System, steps: seq<Protocol.Step>, a: Acceptance, b: Acceptance)
    requires Start(s0) && a in Run(lib, s0, steps).accepted && b in Run(lib, s0, steps).accepted
    requires a.channel == b.channel && a.key == b.key && a.key != ""
    ensures a.id == b.id && a.content == b.content
    ensures UniqueKeys(Run(lib, s0, steps).rows)
  {
    RunInv(lib, s0, steps);
    var s := Run(lib, s0, steps);
    assert Answered(s.rows, a) && Answered(s.rows, b);
    hide Run, RowsOk, CopiesOk, CallsOk, CallersOk, SettledOk;
  }

  /** A repeated or conflicting submission leaves every row that is there exactly as it is. */
  lemma ResubmissionHarmless(lib: Library, s: System, step: Protocol.Step, id: Id)
    requires Inv(lib, s) && Possible(s, step) && (step.Submit? || step.Ingest?) && id in s.rows
    ensures id in Next(lib, s, step).rows && Next(lib, s, step).rows[id] == s.rows[id]
  {
    if step.Submit? {
      AcceptIdentity(lib, s, step.message, step.options, step.now, step.maxAge, step.id, step.createdAt);
    } else if !step.fault {
      AcceptIdentity(lib, s, step.envelope.message.value, step.envelope.options, step.now, step.maxAge, step.id, step.createdAt);
    }
  }

  /**
   * Every acknowledged direct submission is stored under its channel and key with its canonical
   * content; every acknowledged notification names a stored row.
   */
  lemma AcknowledgedIsStored(lib: Library, s0: System, steps: seq<Protocol.Step>, x: Settlement)
    requires Start(s0) && x in Run(lib, s0, steps).settled && x.verdict.Ack?
    ensures var s := Run(lib, s0, steps);
            match x.envelope
            case Malformed => false
            case Direct(m, o) =>
              && m.Some? && Canonicalise(lib, m.value, o).Some?
              && exists id <- s.rows ::
                   && s.rows[id].channel == m.value.Channel() && s.rows[id].messageId == o.key
                   && s.rows[id].fingerprint == Digest(Canonicalise(lib, m.value, o).value)
                   && s.rows[id].payload == Canonicalise(lib, m.value, o).value.payload
                   && s.rows[id].maxRetries == Canonicalise(lib, m.value, o).value.maxRetries
            case Notice(id) => id in s.rows
  {
    hide RowsOk, CopiesOk, CallsOk, CallersOk, TokensApart, CopiesApart, Start, Canonicalise;
    var s := Run(lib, s0, steps);
    RunInv(lib, s0, steps);
    assert Promised(lib, s, x.envelope, x.verdict);
    hide Run, Inv;
    match x.envelope
    case Malformed =>
    case Notice(_) =>
    case Direct(m, o) =>
      var a :| a in s.accepted && a.channel == m.value.Channel() && a.key == o.key
               && Canonicalise(lib, m.value, o) == Some(a.content);
      assert Answered(s.rows, a);
  }

  /**
   * Nothing accepted is stranded, however its notifications were settled or dropped: a row that
   * is not terminal falls due at a finite time, at most 990 s past the latest reading or at its
   * eligibility, and ReserveDispatch with room for it selects it exactly from then on, on its own
   * channel and no other.
   */
  lemma NothingStranded(lib: Library, s0: System, steps: seq<Protocol.Step>, id: Id)
    requires Start(s0) && id in Run(lib, s0, steps).rows && !Terminal(Run(lib, s0, steps).rows[id])
    ensures var s := Run(lib, s0, steps);
            && DueAt(s.rows[id]) <= Max(s.rows[id].eligibleAt, s.latest + 990 * SECOND)
            && Keyed(s.rows)
            && forall now, channel | s.rows[id].eligibleAt <= now ::
                 (id in Batch(s.rows, channel, now, |s.rows|, {}) <==> channel == s.rows[id].channel && DueAt(s.rows[id]) <= now)
  {
    hide Start, Run, Due, DueAt, RowsOk, TokensApart, CopiesOk, CopiesApart, CallsOk, CallersOk, IdentityOk, SettledOk;
    RunInv(lib, s0, steps);
    var s := Run(lib, s0, steps);
    RowFallsDue(s, id);
    RunKeyed(lib, s0, steps);
    hide Batch, Keyed;
    forall now, channel | s.rows[id].eligibleAt <= now
      ensures id in Batch(s.rows, channel, now, |s.rows|, {}) <==> channel == s.rows[id].channel && DueAt(s.rows[id]) <= now
    {
      WholeBatch(s.rows, channel, now);
    }
  }

  lemma RowFallsDue(s: System, id: Id)
    requires RowsOk(s) && id in s.rows && !Terminal(s.rows[id])
    ensures DueAt(s.rows[id]) <= Max(s.rows[id].eligibleAt, s.latest + 990 * SECOND)
    ensures forall now :: s.rows[id].eligibleAt <= now ==> (Due(s.rows[id], now) <==> DueAt(s.rows[id]) <= now)
  {
    hide Due, DueAt, TokensDistinct, Valid;
    var h := s.history[id];
    assert Recounts(h, s.rows[id], id, s.tokens, s.delivered, s.latest);
    forall i | 0 <= i < |h|
      ensures Reading(h[i].op) <= s.latest
    {
      assert h[i] in h;
    }
    NeverStranded(h, s.latest);
  }

  // ---------- Continuations ----------

  /**
   * However a run goes on, a row keeps every column fixed at its insertion, and a row that is
   * Sent or Dead keeps every column.
   */
  lemma {:induction false} RowsPersist(lib: Library, s0: System, steps: seq<Protocol.Step>, more: seq<Protocol.Step>, id: Id)
    requires Start(s0) && id in Run(lib, s0, steps).rows
    ensures id in Run(lib, s0, steps + more).rows
    ensures SameSubmission(Run(lib, s0, steps + more).rows[id], Run(lib, s0, steps).rows[id])
    ensures Terminal(Run(lib, s0, steps).rows[id])
            ==> Run(lib, s0, steps + more).rows[id] == Run(lib, s0, steps).rows[id]
    decreases |more|
  {
    if more == [] {
      assert steps + more == steps;
    } else {
      var less := more[..|more| - 1];
      RowsPersist(lib, s0, steps, less, id);
      assert (steps + more)[..|steps + more| - 1] == steps + less;
      var s, step := Run(lib, s0, steps + less), more[|more| - 1];
      assert (steps + more)[|steps + more| - 1] == step;
      RunInv(lib, s0, steps + less);
      if Possible(s, step) {
        StepOrderly(lib, s, step);
        RowPersists(s.rows, Next(lib, s, step).rows, OpOf(s, step), id);
      }
      hide Next, Inv, Start, Orderly, Possible;
    }
  }

  lemma RowPersists(t: Table, t': Table, op: RowOp, id: Id)
    requires Rowwise(t, t', op) && id in t
    ensures id in t' && SameSubmission(t'[id], t[id]) && (Terminal(t[id]) ==> t'[id] == t[id])
  {
    if t[id] != t'[id] { StepAndToken(t[id], op); }
  }

  // ---------- Clocks ----------

  /** The clock reading a step takes, if it takes one. */
  function ReadingOf(step: Protocol.Step): Option<Instant> {
    match step
    case Submit(_, _, now, _, _, _) => Some(now)
    case Ingest(_, _, now, _, _, _, _) => Some(now)
    case Claim(_, _, _, now, _, _, _) => Some(now)
    case Call(_, now) => Some(now)
    case Return(_, _, now) => Some(now)
    case Finish(_, now, _, _) => Some(now)
    case Reserve(_, now, _) => Some(now)
    case _ => None
  }

  /**
   * Clocks within `skew`: no step's reading is more than that behind the latest reading of the
   * steps before it. Zero is the synchronised clocks the queue contract assumes.
   */
  ghost predicate ClocksAgree(lib: Library, s0: System, steps: seq<Protocol.Step>, skew: Duration) {
    steps != [] ==>
      var s := Run(lib, s0, steps[..|steps| - 1]);
      var reading := ReadingOf(steps[|steps| - 1]);
      && ClocksAgree(lib, s0, steps[..|steps| - 1], skew)
      && (reading.Some? ==> s.latest <= reading.value + skew)
  }

  /** Each worker's own clock does not run backwards between its claim and its completion. */
  ghost predicate ForwardWorkers(lib: Library, s0: System, steps: seq<Protocol.Step>) {
    steps != [] ==>
      var s := Run(lib, s0, steps[..|steps| - 1]);
      var step := steps[|steps| - 1];
      && ForwardWorkers(lib, s0, steps[..|steps| - 1])
      && (step.Finish? && PcOf(s, step.worker).Called? && PcOf(s, step.worker).outbox.leaseUntil.Some?
          ==> PcOf(s, step.worker).outbox.leaseUntil.value - LEASE <= step.now)
  }

  lemma WithinExtend(h: History, e: Entry, latest: Instant, skew: Duration)
    requires ClocksWithin(h, skew) && (forall x <- h :: Reading(x.op) <= latest) && latest <= Reading(e.op) + skew
    ensures ClocksWithin(h + [e], skew)
  {
    forall i, j | 0 <= i < j < |h + [e]|
      ensures Reading((h + [e])[i].op) <= Reading((h + [e])[j].op) + skew
    {
      assert (h + [e])[i] == h[i] && h[i] in h;
    }
  }

  /** What a step adds to the record of one row. */
  lemma HistoryAfter(lib: Library, s: System, step: Protocol.Step, id: Id)
    requires Inv(lib, s) && Possible(s, step) && id in Next(lib, s, step).rows
    ensures id in Next(lib, s, step).history
    ensures var e := Entry(OpOf(s, step), Next(lib, s, step).rows[id]);
            if id !in s.history then Next(lib, s, step).history[id] == [e]
            else || Next(lib, s, step).history[id] == s.history[id]
                 || (Next(lib, s, step).history[id] == s.history[id] + [e] && id in s.rows
                     && s.rows[id] != Next(lib, s, step).rows[id])
  {
    StepOrderly(lib, s, step);
    hide Next, Possible;
  }

  /** A step that changes a row takes a reading, and the row's record shows it. */
  lemma ReadingTaken(lib: Library, s: System, step: Protocol.Step, id: Id)
    requires Inv(lib, s) && Possible(s, step) && id in s.rows && id in Next(lib, s, step).rows
    requires s.rows[id] != Next(lib, s, step).rows[id]
    ensures ReadingOf(step) == Some(Reading(OpOf(s, step)))
  {
    StepOrderly(lib, s, step);
  }

  /** The latest reading on record comes from the step's own, if it is not the one before. */
  lemma LatestAfter(lib: Library, s: System, step: Protocol.Step)
    requires Possible(s, step)
    ensures Next(lib, s, step).latest == s.latest
            || (ReadingOf(step).Some? && Next(lib, s, step).latest == Max(s.latest, ReadingOf(step).value))
  {
  }

  /** Skew between processes bounds the skew in every row's record. */
  lemma {:induction false} RecordsWithin(lib: Library, s0: System, steps: seq<Protocol.Step>, skew: Duration, id: Id)
    requires Start(s0) && ClocksAgree(lib, s0, steps, skew) && id in Run(lib, s0, steps).rows
    ensures id in Run(lib, s0, steps).history && ClocksWithin(Run(lib, s0, steps).history[id], skew)
  {
    if steps != [] {
      var prefix := steps[..|steps| - 1];
      var s, step := Run(lib, s0, prefix), steps[|steps| - 1];
      RunInv(lib, s0, prefix);
      if id in s.rows { RecordsWithin(lib, s0, prefix, skew, id); }
      if Possible(s, step) { WithinKept(lib, s, step, skew, id); }
    }
  }

  lemma WithinKept(lib: Library, s: System, step: Protocol.Step, skew: Duration, id: Id)
    requires Inv(lib, s) && Possible(s, step) && id in Next(lib, s, step).rows
    requires id in s.rows ==> id in s.history && ClocksWithin(s.history[id], skew)
    requires ReadingOf(step).Some? ==> s.latest <= ReadingOf(step).value + skew
    ensures id in Next(lib, s, step).history && ClocksWithin(Next(lib, s, step).history[id], skew)
  {
    hide Next, TokensApart, CopiesOk, CopiesApart, CallsOk, CallersOk, IdentityOk, SettledOk, Valid, TokensDistinct;
    HistoryAfter(lib, s, step, id);
    if id in s.rows && s.rows[id] != Next(lib, s, step).rows[id] {
      assert Recounts(s.history[id], s.rows[id], id, s.tokens, s.delivered, s.latest);
      ReadingTaken(lib, s, step, id);
      WithinExtend(s.history[id], Entry(OpOf(s, step), Next(lib, s, step).rows[id]), s.latest, skew);
    }
  }

  /** A completion that commits was read no earlier than the claim recorded just before it. */
  lemma ForwardExtend(s: System, outbox: Row, op: RowOp, row: Row)
    requires RowsOk(s) && CopyOk(s, outbox) && s.rows[outbox.id] == outbox && op.Finish?
    requires ForwardAttempts(s.history[outbox.id]) && outbox.leaseUntil.Some? && outbox.leaseUntil.value - LEASE <= op.now
    ensures ForwardAttempts(s.history[outbox.id] + [Entry(op, row)])
  {
    var h := s.history[outbox.id];
    CopyIsLastClaim(s, outbox);
    hide RowsOk, CopyOk;
    var h' := h + [Entry(op, row)];
    forall i | 0 < i < |h'| && h'[i].op.Finish?
      ensures Reading(h'[i - 1].op) <= Reading(h'[i].op)
    {
      if i < |h| { assert h[i].op.Finish?; }
    }
  }

  /** A row found in an attempt of its record ends its record with that attempt's claim. */
  lemma ClaimedLast(h: History)
    requires Valid(h) && Last(h).state == Sending && Last(h).leaseToken in ClaimTokens(h)
    ensures StartsAttempt(h, |h| - 1) && Last(h).leaseToken == h[|h| - 1].op.token
    ensures Last(h).leaseUntil == Some(h[|h| - 1].op.now + LEASE)
  {
    if |h| == 1 {
      NoTokensAtStart(h);
    } else {
      Peel(h);
      StepAndToken(Last(Before(h)), h[|h| - 1].op);
    }
  }

  lemma NoTokensAtStart(h: History)
    requires Valid(h) && |h| == 1
    ensures ClaimTokens(h) == {}
  {
    assert Before(h) == [];
  }

  lemma StartForward(s: System, id: Id)
    requires Start(s) && id in s.rows
    ensures id in s.history && ForwardAttempts(s.history[id])
  {
  }

  lemma {:induction false} AttemptsForward(lib: Library, s0: System, steps: seq<Protocol.Step>, id: Id)
    requires Start(s0) && ForwardWorkers(lib, s0, steps) && id in Run(lib, s0, steps).rows
    ensures id in Run(lib, s0, steps).history && ForwardAttempts(Run(lib, s0, steps).history[id])
  {
    hide Start, Inv, Next;
    if steps == [] {
      RunInv(lib, s0, []);
      StartForward(s0, id);
    } else {
      var prefix := steps[..|steps| - 1];
      var s, step := Run(lib, s0, prefix), steps[|steps| - 1];
      RunInv(lib, s0, prefix);
      if id in s.rows { AttemptsForward(lib, s0, prefix, id); }
      if Possible(s, step) { ForwardKept(lib, s, step, id); }
    }
  }

  lemma ForwardKept(lib: Library, s: System, step: Protocol.Step, id: Id)
    requires Inv(lib, s) && Possible(s, step) && id in Next(lib, s, step).rows
    requires id in s.rows ==> ForwardAttempts(s.history[id])
    requires step.Finish? && PcOf(s, step.worker).outbox.leaseUntil.Some?
             ==> PcOf(s, step.worker).outbox.leaseUntil.value - LEASE <= step.now
    ensures id in Next(lib, s, step).history && ForwardAttempts(Next(lib, s, step).history[id])
  {
    hide Next, Recounts, TokensApart, CopiesOk, CopiesApart, CallsOk, CallersOk, IdentityOk, SettledOk;
    HistoryAfter(lib, s, step, id);
    var e := Entry(OpOf(s, step), Next(lib, s, step).rows[id]);
    if step.Finish? && id in s.rows && s.rows[id] != Next(lib, s, step).rows[id] {
      FinishFindsCopy(lib, s, step, id);
      ForwardExtend(s, s.rows[id], e.op, e.row);
    } else if !step.Finish? && id in s.rows {
      ForwardByOthers(s.history[id], e);
    }
  }

  lemma ForwardByOthers(h: History, e: Entry)
    requires ForwardAttempts(h) && !e.op.Finish?
    ensures ForwardAttempts(h + [e])
  {
    forall i | 0 < i < |h + [e]| && (h + [e])[i].op.Finish?
      ensures Reading((h + [e])[i - 1].op) <= Reading((h + [e])[i].op)
    {
      assert h[i].op.Finish?;
    }
  }

  /** The row a completion changes is the worker's copy. */
  lemma FinishFindsCopy(lib: Library, s: System, step: Protocol.Step, id: Id)
    requires CopiesOk(s) && Possible(s, step) && step.Finish? && id in s.rows && id in Next(lib, s, step).rows
    requires s.rows[id] != Next(lib, s, step).rows[id]
    ensures s.rows[id] == PcOf(s, step.worker).outbox && id == PcOf(s, step.worker).outbox.id
    ensures CopyOk(s, s.rows[id]) && s.rows[id].leaseUntil.Some?
  {
    var pc := s.workers[step.worker];
    assert CopyOk(s, pc.outbox);
    FinishLossless(s, pc.outbox, pc.outcome, step.now, step.draw);
  }
}
