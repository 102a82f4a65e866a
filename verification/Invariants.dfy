/** The invariants of every run, each preserved by every step. */
module Invariants {
  import opened Base
  import opened Messages
  import opened Outbox
  import opened Retry
  import opened Repository
  import opened RowMachine
  import opened RowLaws
  import opened Protocol
  import opened Refinement

  // ---------- What a step may do ----------

  /** A reported delivery is on record. */
  ghost predicate OutcomesOk(s: System) {
    forall w <- s.workers :: s.workers[w].Called? && s.workers[w].outcome.Delivered?
      ==> s.workers[w].outbox.leaseToken in s.delivered
  }

  predicate Changed(t: Table, t': Table, id: Id) {
    id in t && (id !in t' || t[id] != t'[id])
  }

  /** The record only grows, readings are on record, and a claim's token is fresh. */
  ghost predicate Grows(s: System, s': System, op: RowOp) {
    && s.tokens <= s'.tokens && s.delivered <= s'.delivered && s.latest <= s'.latest
    && (s'.rows != s.rows ==> Reading(op) <= s'.latest)
    && (op.Claim? ==> op.token !in s.tokens && (s'.rows != s.rows ==> op.token in s'.tokens))
    && (op.Finish? && op.outcome.Delivered? ==> op.token in s.delivered)
  }

  ghost predicate OneRow(t: Table, t': Table) {
    forall a, b :: Changed(t, t', a) && Changed(t, t', b) ==> a == b
  }

  /** Rows move by the one operation, a claim touches one row, the record grows. */
  ghost predicate Orderly(s: System, s': System, op: RowOp) {
    && Rowwise(s.rows, s'.rows, op)
    && (s'.history == Recorded(s.history, s.rows, s'.rows, op) || (s'.rows == s.rows && s'.history == s.history))
    && Grows(s, s', op)
    && (op.Claim? ==> OneRow(s.rows, s'.rows))
  }

  lemma ClaimTouchesOne(t: Table, id: Id, channel: Channel, now: Instant, token: Token, hidden: bool)
    ensures OneRow(t, AfterClaim(t, id, channel, now, LEASE, token, hidden))
  {
    assert forall k :: Changed(t, AfterClaim(t, id, channel, now, LEASE, token, hidden), k) ==> k == id;
  }

  lemma StepGrows(lib: Library, s: System, step: Protocol.Step)
    requires OutcomesOk(s) && Possible(s, step)
    ensures Grows(s, Next(lib, s, step), OpOf(s, step))
  {
  }

  lemma StepOrderly(lib: Library, s: System, step: Protocol.Step)
    requires RowsOk(s) && CopiesOk(s) && OutcomesOk(s) && Possible(s, step)
    ensures Orderly(s, Next(lib, s, step), OpOf(s, step))
  {
    StepRowwise(lib, s, step);
    StepGrows(lib, s, step);
    if step.Claim? {
      ClaimTouchesOne(s.rows, step.envelope.id, step.channel, step.now, step.token, step.hidden);
      assert OneRow(s.rows, s.rows);
    }
  }

  // ---------- Histories ----------

  lemma ClaimTokensExtend(h: History, e: Entry)
    ensures ClaimTokens(h + [e]) == ClaimTokens(h) + if e.op.Claim? && e.row.state == Sending then {e.op.token} else {}
  {
    assert Before(h + [e]) == h;
  }

  lemma {:induction false} InClaimTokens(h: History, i: nat)
    requires i < |h| && StartsAttempt(h, i)
    ensures h[i].op.token in ClaimTokens(h)
  {
    if i < |h| - 1 {
      assert StartsAttempt(Before(h), i);
      InClaimTokens(Before(h), i);
    }
  }

  lemma TokensDistinctExtend(h: History, e: Entry)
    requires TokensDistinct(h) && (e.op.Claim? ==> e.op.token !in ClaimTokens(h))
    ensures TokensDistinct(h + [e])
  {
    var h' := h + [e];
    forall i, j | 0 <= i < j < |h'| && StartsAttempt(h', i) && StartsAttempt(h', j)
      ensures h'[i].op.token != h'[j].op.token
    {
      assert StartsAttempt(h, i);
      if j < |h| {
        assert StartsAttempt(h, j);
      } else {
        InClaimTokens(h, i);
      }
    }
  }

  lemma RecountsExtend(h: History, row: Row, op: RowOp, s: System, s': System)
    requires Recounts(h, row, row.id, s.tokens, s.delivered, s.latest) && Enabled(row, op)
    requires Grows(s, s', op) && s.rows != s'.rows
    ensures var row' := RowMachine.Step(row, op);
            Recounts(h + [Entry(op, row')], row', row.id, s'.tokens, s'.delivered, s'.latest)
  {
    var e := Entry(op, RowMachine.Step(row, op));
    ValidExtend(h, op);
    ClaimTokensExtend(h, e);
    TokensDistinctExtend(h, e);
    StepKeepsId(row, op);
    hide RowMachine.Step, Enabled, Valid;
  }

  lemma StepKeepsId(row: Row, op: RowOp)
    requires Enabled(row, op)
    ensures RowMachine.Step(row, op).id == row.id
  {
  }

  lemma RecountsNew(op: RowOp, row: Row, s': System)
    requires Starts(Entry(op, row)) && Reading(op) <= s'.latest
    ensures Recounts([Entry(op, row)], row, row.id, s'.tokens, s'.delivered, s'.latest)
  {
    assert Before([Entry(op, row)]) == [];
  }

  lemma RecountsKept(s: System, s': System, op: RowOp, id: Id)
    requires RowsOk(s) && Orderly(s, s', op) && id in s'.rows
    ensures id in s'.history
    ensures Recounts(s'.history[id], s'.rows[id], id, s'.tokens, s'.delivered, s'.latest)
  {
    hide RowMachine.Step, Enabled, Valid, TokensDistinct, Starts;
    if id !in s.rows {
      RecountsNew(op, s'.rows[id], s');
    } else {
      assert Recounts(s.history[id], s.rows[id], id, s.tokens, s.delivered, s.latest);
      if s'.rows[id] != s.rows[id] {
        RecountsExtend(s.history[id], s.rows[id], op, s, s');
      }
    }
  }

  lemma RowsKept(s: System, s': System, op: RowOp)
    requires RowsOk(s) && Orderly(s, s', op)
    ensures RowsOk(s')
  {
    hide Recounts, RowMachine.Step, Enabled, Starts;
    forall id <- s'.rows
      ensures id in s'.history && Recounts(s'.history[id], s'.rows[id], id, s'.tokens, s'.delivered, s'.latest)
    {
      RecountsKept(s, s', op, id);
    }
    assert s'.history.Keys == s'.rows.Keys;
  }

  /** A row's claim tokens only grow, and only by the fresh token of a claim. */
  lemma TokensGrow(s: System, s': System, op: RowOp, id: Id)
    requires RowsOk(s) && Orderly(s, s', op) && id in s'.rows
    ensures RowsOk(s')
    ensures id in s.rows ==> ClaimTokens(s.history[id]) <= ClaimTokens(s'.history[id])
    ensures var old' := if id in s.rows then ClaimTokens(s.history[id]) else {};
            ClaimTokens(s'.history[id]) <= old' + if op.Claim? then {op.token} else {}
    ensures id in s.rows && s'.rows[id] == s.rows[id] ==> ClaimTokens(s'.history[id]) == ClaimTokens(s.history[id])
  {
    hide Recounts, RowMachine.Step, Enabled, Starts;
    RowsKept(s, s', op);
    if id !in s.rows {
      assert Before([Entry(op, s'.rows[id])]) == [];
    } else if s'.rows[id] != s.rows[id] {
      ClaimTokensExtend(s.history[id], Entry(op, s'.rows[id]));
    }
  }

  lemma DisjointGrow(a: set<Token>, a': set<Token>, b: set<Token>, b': set<Token>, issued: set<Token>, newest: Token)
    requires a !! b && a <= issued && b <= issued && newest !in issued
    requires a' <= a + {newest} && b' <= b + {newest} && (a' <= a || b' <= b)
    ensures a' !! b'
  {
  }

  lemma TokensApartPair(s: System, s': System, op: RowOp, a: Id, b: Id)
    requires RowsOk(s) && RowsOk(s') && TokensApart(s) && Orderly(s, s', op) && a in s.rows && b in s.rows && a != b
    requires a in s'.rows && b in s'.rows
    ensures ClaimTokens(s'.history[a]) !! ClaimTokens(s'.history[b])
  {
    hide Rowwise, Recorded, Recounts;
    TokensGrow(s, s', op, a);
    TokensGrow(s, s', op, b);
    if op.Claim? {
      TokensIssued(s, a);
      TokensIssued(s, b);
      assert Changed(s.rows, s'.rows, a) && Changed(s.rows, s'.rows, b) ==> a == b;
      hide TokensApart, RowsOk, Orderly, OneRow;
      DisjointGrow(ClaimTokens(s.history[a]), ClaimTokens(s'.history[a]), ClaimTokens(s.history[b]), ClaimTokens(s'.history[b]),
                   s.tokens, op.token);
    }
  }

  lemma TokensIssued(s: System, id: Id)
    requires RowsOk(s) && id in s.rows
    ensures ClaimTokens(s.history[id]) <= s.tokens
  {
    assert Recounts(s.history[id], s.rows[id], id, s.tokens, s.delivered, s.latest);
  }

  lemma TokensApartKept(s: System, s': System, op: RowOp)
    requires RowsOk(s) && TokensApart(s) && Orderly(s, s', op)
    ensures TokensApart(s')
  {
    hide Recounts, Orderly;
    RowsKept(s, s', op);
    forall a, b | a in s'.history && b in s'.history && a != b
      ensures ClaimTokens(s'.history[a]) !! ClaimTokens(s'.history[b])
    {
      if a !in s.rows {
        NewRowsHaveNoTokens(s, s', op, a);
      } else if b !in s.rows {
        NewRowsHaveNoTokens(s, s', op, b);
      } else {
        TokensApartPair(s, s', op, a, b);
      }
    }
  }

  lemma NewRowsHaveNoTokens(s: System, s': System, op: RowOp, id: Id)
    requires RowsOk(s) && Orderly(s, s', op) && id in s'.rows && id !in s.rows
    ensures RowsOk(s') && ClaimTokens(s'.history[id]) == {}
  {
    RowsKept(s, s', op);
    assert Before([Entry(op, s'.rows[id])]) == [];
  }

  // ---------- Workers' copies ----------

  /** The worker whose place in handleDelivery a step moves. */
  function WorkerOf(step: Protocol.Step): Option<WorkerId> {
    match step
    case Submit(_, _, _, _, _, _) => None
    case Reserve(_, _, _) => None
    case _ => Some(step.worker)
  }

  lemma OthersStay(lib: Library, s: System, step: Protocol.Step, w: WorkerId)
    requires Possible(s, step) && WorkerOf(step) != Some(w)
    ensures PcOf(Next(lib, s, step), w) == PcOf(s, w)
    ensures w in Next(lib, s, step).workers <==> w in s.workers
  {
  }

  /** A step leaves the token and the submitted columns of a row alone unless it starts or ends an attempt. */
  lemma StepAndToken(row: Row, op: RowOp)
    requires Enabled(row, op)
    ensures SameSubmission(RowMachine.Step(row, op), row)
    ensures RowMachine.Step(row, op).state == Sending ==> op.Claim? && RowMachine.Step(row, op).leaseToken == op.token
  {
  }

  lemma AttemptNotRevived(row: Row, op: RowOp, outbox: Row, issued: set<Token>)
    requires Enabled(row, op) && SameSubmission(outbox, row) && outbox.leaseToken in issued
    requires op.Claim? ==> op.token !in issued
    ensures SameSubmission(outbox, RowMachine.Step(row, op))
    ensures RowMachine.Step(row, op).state == Sending ==> RowMachine.Step(row, op).leaseToken != outbox.leaseToken
  {
    StepAndToken(row, op);
  }

  /** A record is only added to, so its first entry stays. */
  lemma FirstKept(s: System, s': System, op: RowOp, id: Id)
    requires RowsOk(s) && Orderly(s, s', op) && id in s.rows && id in s.history && s.history[id] != []
    ensures id in s'.history && s'.history[id] != [] && s'.history[id][0] == s.history[id][0]
  {
  }

  /** A copy stays good while others move: the row keeps the copy's attempt untouched or leaves it for ever. */
  lemma CopyKept(s: System, s': System, op: RowOp, outbox: Row)
    requires RowsOk(s) && Orderly(s, s', op) && CopyOk(s, outbox)
    ensures CopyOk(s', outbox)
  {
    hide RowMachine.Step, Enabled, Starts, Recounts, OneRow, SameSubmission, Recorded;
    var id := outbox.id;
    assert id in s'.rows;
    FirstKept(s, s', op, id);
    TokensGrow(s, s', op, id);
    TokensIssued(s, id);
    if s'.rows[id] != s.rows[id] {
      AttemptNotRevived(s.rows[id], op, outbox, s.tokens);
    }
  }

  /** A claim that hands out a copy: the row it found, what it wrote, and the entry it left. */
  lemma ClaimHandsOut(lib: Library, s: System, step: Protocol.Step)
    requires Possible(s, step) && step.Claim? && RowsOk(s)
    requires PcOf(Next(lib, s, step), step.worker).HoldsCopy()
    ensures var s' := Next(lib, s, step);
            var id := step.envelope.id;
            && id in s.rows && id in s.history
            && var outbox := ClaimRow(s.rows[id], step.now, LEASE, step.token);
               && !Exhausted(s.rows[id], step.now)
               && PcOf(s', step.worker) == Pc.Claimed(step.envelope, outbox)
               && s'.rows == s.rows[id := outbox]
               && id in s'.history
               && s'.history[id] == s.history[id] + [Entry(RowOp.Claim(step.now, step.token), outbox)]
  {
    hide Recounts;
  }

  lemma JustClaimed(s: System, h: History, now: Instant, token: Token)
    requires Valid(h) && !Exhausted(Last(h), now)
    requires var outbox := ClaimRow(Last(h), now, LEASE, token);
             && outbox.id in s.rows && s.rows[outbox.id] == outbox && outbox.id in s.history
             && s.history[outbox.id] == h + [Entry(RowOp.Claim(now, token), outbox)]
    ensures CopyOk(s, ClaimRow(Last(h), now, LEASE, token))
  {
    Conservation(h);
    ClaimTokensExtend(h, Entry(RowOp.Claim(now, token), ClaimRow(Last(h), now, LEASE, token)));
    hide Valid, Exhausted;
  }

  /** The copy a successful claim returns. */
  lemma FreshCopy(lib: Library, s: System, step: Protocol.Step)
    requires RowsOk(s) && Possible(s, step) && step.Claim?
    requires PcOf(Next(lib, s, step), step.worker).HoldsCopy()
    ensures PcOf(Next(lib, s, step), step.worker).Claimed?
    ensures PcOf(Next(lib, s, step), step.worker).outbox.leaseToken == step.token
    ensures CopyOk(Next(lib, s, step), PcOf(Next(lib, s, step), step.worker).outbox)
  {
    var id := step.envelope.id;
    ClaimHandsOut(lib, s, step);
    assert Recounts(s.history[id], s.rows[id], id, s.tokens, s.delivered, s.latest);
    assert ClaimRow(s.rows[id], step.now, LEASE, step.token).id == id;
    hide Next, Valid, TokensDistinct, Recounts, RowsOk, CopyOk;
    JustClaimed(Next(lib, s, step), s.history[id], step.now, step.token);
  }

  lemma CopiesKept(lib: Library, s: System, step: Protocol.Step)
    requires RowsOk(s) && CopiesOk(s) && OutcomesOk(s) && Possible(s, step)
    ensures CopiesOk(Next(lib, s, step))
  {
    var s' := Next(lib, s, step);
    StepOrderly(lib, s, step);
    forall w <- s'.workers | s'.workers[w].HoldsCopy()
      ensures CopyOk(s', s'.workers[w].outbox)
    {
      if WorkerOf(step) != Some(w) {
        OthersStay(lib, s, step, w);
        CopyKept(s, s', OpOf(s, step), s.workers[w].outbox);
      } else if step.Claim? {
        FreshCopy(lib, s, step);
      } else {
        SameCopy(lib, s, step);
        CopyKept(s, s', OpOf(s, step), s.workers[w].outbox);
      }
    }
  }

  /** No step but Claim gives its worker another copy. */
  lemma SameCopy(lib: Library, s: System, step: Protocol.Step)
    requires Possible(s, step) && WorkerOf(step).Some? && !step.Claim?
    requires PcOf(Next(lib, s, step), step.worker).HoldsCopy()
    ensures PcOf(s, step.worker).HoldsCopy()
    ensures PcOf(Next(lib, s, step), step.worker).outbox == PcOf(s, step.worker).outbox
  {
  }

  lemma CopiesApartKept(lib: Library, s: System, step: Protocol.Step)
    requires RowsOk(s) && CopiesOk(s) && OutcomesOk(s) && CopiesApart(s) && Possible(s, step)
    ensures CopiesApart(Next(lib, s, step))
  {
    var s' := Next(lib, s, step);
    forall v, w | v in s'.workers && w in s'.workers && v != w && s'.workers[v].HoldsCopy() && s'.workers[w].HoldsCopy()
      ensures s'.workers[v].outbox.leaseToken != s'.workers[w].outbox.leaseToken
    {
      CopyTokenFrom(lib, s, step, v);
      CopyTokenFrom(lib, s, step, w);
      hide Next, Recounts, CopyOk;
    }
  }

  /** The token of a copy is the fresh one of this step's claim, or one its worker held before. */
  lemma CopyTokenFrom(lib: Library, s: System, step: Protocol.Step, w: WorkerId)
    requires RowsOk(s) && CopiesOk(s) && OutcomesOk(s) && Possible(s, step)
    requires PcOf(Next(lib, s, step), w).HoldsCopy()
    ensures if step.Claim? && step.worker == w
            then PcOf(Next(lib, s, step), w).outbox.leaseToken == step.token && step.token !in s.tokens
            else && PcOf(s, w).HoldsCopy() && PcOf(s, w).outbox == PcOf(Next(lib, s, step), w).outbox
                 && PcOf(s, w).outbox.leaseToken in s.tokens
  {
    if step.Claim? && step.worker == w {
      FreshCopy(lib, s, step);
    } else {
      if WorkerOf(step) == Some(w) { SameCopy(lib, s, step); } else { OthersStay(lib, s, step, w); }
      CopyTokenIssued(s, PcOf(s, w).outbox);
      assert CopyOk(s, s.workers[w].outbox);
    }
  }

  lemma CopyTokenIssued(s: System, outbox: Row)
    requires RowsOk(s) && CopyOk(s, outbox)
    ensures outbox.leaseToken in s.tokens
  {
    assert Recounts(s.history[outbox.id], s.rows[outbox.id], outbox.id, s.tokens, s.delivered, s.latest);
  }

  lemma OutcomesKept(lib: Library, s: System, step: Protocol.Step)
    requires OutcomesOk(s) && Possible(s, step)
    ensures OutcomesOk(Next(lib, s, step))
  {
    var s' := Next(lib, s, step);
    StepGrows(lib, s, step);
    forall w <- s'.workers | s'.workers[w].Called? && s'.workers[w].outcome.Delivered?
      ensures s'.workers[w].outbox.leaseToken in s'.delivered
    {
      if WorkerOf(step) != Some(w) { OthersStay(lib, s, step, w); }
    }
  }

  // ---------- Provider calls ----------

  function CallTokens(calls: seq<ProviderCall>): set<Token> {
    set c | c in calls :: c.token
  }

  /** Each token is called under at most once, by the row it was issued for. */
  ghost predicate CallsOk(s: System) {
    && (forall i, j :: 0 <= i < j < |s.calls| ==> s.calls[i].token != s.calls[j].token)
    && (forall c <- s.calls :: c.id in s.history && c.token in ClaimTokens(s.history[c.id]))
    && s.delivered <= CallTokens(s.calls)
  }

  /** A worker that has not called yet holds an unused token; one that is calling has used it. */
  ghost predicate CallersOk(s: System) {
    forall w <- s.workers ::
      && (s.workers[w].Claimed? ==> s.workers[w].outbox.leaseToken !in CallTokens(s.calls))
      && (s.workers[w].Calling? ==> s.workers[w].outbox.leaseToken in CallTokens(s.calls))
  }

  lemma CallsIssued(s: System, token: Token)
    requires RowsOk(s) && CallsOk(s) && token in CallTokens(s.calls)
    ensures token in s.tokens
  {
    var c :| c in s.calls && c.token == token;
    assert Recounts(s.history[c.id], s.rows[c.id], c.id, s.tokens, s.delivered, s.latest);
  }

  lemma CallTokensGrow(lib: Library, s: System, step: Protocol.Step)
    requires Possible(s, step)
    ensures var new' := if step.Call? then {PcOf(s, step.worker).outbox.leaseToken} else {};
            CallTokens(Next(lib, s, step).calls) == CallTokens(s.calls) + new'
    ensures Next(lib, s, step).delivered
         == s.delivered + if step.Return? && step.outcome.Delivered? then {PcOf(s, step.worker).outbox.leaseToken} else {}
  {
  }

  /** The calls on record: one more after a Call step, under the token of the caller's copy. */
  lemma CallsAfter(lib: Library, s: System, step: Protocol.Step)
    requires Possible(s, step)
    ensures Next(lib, s, step).calls == s.calls + if step.Call?
            then [ProviderCall(PcOf(s, step.worker).outbox.id, PcOf(s, step.worker).outbox.leaseToken)] else []
  {
  }

  lemma CallsStayIssued(lib: Library, s: System, step: Protocol.Step, c: ProviderCall)
    requires RowsOk(s) && CopiesOk(s) && OutcomesOk(s) && CallsOk(s) && Possible(s, step)
    requires c in Next(lib, s, step).calls
    ensures c.id in Next(lib, s, step).history && c.token in ClaimTokens(Next(lib, s, step).history[c.id])
  {
    StepOrderly(lib, s, step);
    CallsAfter(lib, s, step);
    if c !in s.calls {
      assert CopyOk(s, s.workers[step.worker].outbox);
    }
    TokensGrow(s, Next(lib, s, step), OpOf(s, step), c.id);
  }

  lemma CallsStayDistinct(lib: Library, s: System, step: Protocol.Step)
    requires CallsOk(s) && CallersOk(s) && Possible(s, step)
    ensures forall i, j :: 0 <= i < j < |Next(lib, s, step).calls|
              ==> Next(lib, s, step).calls[i].token != Next(lib, s, step).calls[j].token
  {
    CallsAfter(lib, s, step);
    assert forall c <- s.calls :: c.token in CallTokens(s.calls);
    assert step.Call? ==> s.workers[step.worker].Claimed?;
    hide Next;
  }

  lemma CallsKept(lib: Library, s: System, step: Protocol.Step)
    requires RowsOk(s) && CopiesOk(s) && OutcomesOk(s) && CallsOk(s) && CallersOk(s) && Possible(s, step)
    ensures CallsOk(Next(lib, s, step))
  {
    var s' := Next(lib, s, step);
    CallsStayDistinct(lib, s, step);
    CallTokensGrow(lib, s, step);
    assert step.Return? ==> step.worker in s.workers;
    forall c <- s'.calls
      ensures c.id in s'.history && c.token in ClaimTokens(s'.history[c.id])
    {
      CallsStayIssued(lib, s, step, c);
    }
    hide Next, RowsOk, CopiesOk;
  }

  lemma CallersKept(lib: Library, s: System, step: Protocol.Step)
    requires RowsOk(s) && CopiesOk(s) && CopiesApart(s) && OutcomesOk(s) && CallsOk(s) && CallersOk(s) && Possible(s, step)
    ensures CallersOk(Next(lib, s, step))
  {
    var s' := Next(lib, s, step);
    CallTokensGrow(lib, s, step);
    forall w <- s'.workers
      ensures s'.workers[w].Claimed? ==> s'.workers[w].outbox.leaseToken !in CallTokens(s'.calls)
      ensures s'.workers[w].Calling? ==> s'.workers[w].outbox.leaseToken in CallTokens(s'.calls)
    {
      CallerKept(lib, s, step, w);
    }
  }

  /** A worker that moves on without a claim calls under the token it holds, or stops holding one. */
  lemma CallerMoved(lib: Library, s: System, step: Protocol.Step)
    requires Possible(s, step) && WorkerOf(step).Some? && !step.Claim?
    ensures var pc := PcOf(Next(lib, s, step), step.worker);
            && !pc.Claimed?
            && (pc.Calling? ==> pc.outbox.leaseToken in CallTokens(Next(lib, s, step).calls))
  {
    CallTokensGrow(lib, s, step);
    hide CallTokens, Accept, Decide, Recorded;
  }

  lemma CallerKept(lib: Library, s: System, step: Protocol.Step, w: WorkerId)
    requires RowsOk(s) && CopiesOk(s) && CopiesApart(s) && OutcomesOk(s) && CallsOk(s) && CallersOk(s) && Possible(s, step)
    requires w in Next(lib, s, step).workers
    ensures var s' := Next(lib, s, step);
            && (s'.workers[w].Claimed? ==> s'.workers[w].outbox.leaseToken !in CallTokens(s'.calls))
            && (s'.workers[w].Calling? ==> s'.workers[w].outbox.leaseToken in CallTokens(s'.calls))
  {
    CallTokensGrow(lib, s, step);
    if WorkerOf(step) != Some(w) {
      hide Next, RowsOk, CopiesOk, OutcomesOk, CallsOk, CallTokens;
      OthersStay(lib, s, step, w);
    } else if step.Claim? {
      hide CopiesOk, OutcomesOk, CallTokens, CopiesApart;
      if PcOf(Next(lib, s, step), w).HoldsCopy() {
        FreshCopy(lib, s, step);
        if step.token in CallTokens(s.calls) { CallsIssued(s, step.token); }
      }
      hide Next, RowsOk, CopyOk;
    } else {
      CallerMoved(lib, s, step);
    }
  }
}
