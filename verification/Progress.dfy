/**
 * No accepted row is ever stuck: wherever a run stands, a row that is due can be carried to the
 * end of its life by one reservation and one successful attempt, whatever came before.
 */
module Progress {
  import opened Base
  import opened Messages
  import opened Outbox
  import opened Retry
  import opened Repository
  import opened RowMachine
  import opened Protocol
  import opened Theorems

  /** Finitely many ids, workers or tokens leave a fresh one. */
  lemma {:induction false} Unused(used: set<nat>) returns (n: nat)
    ensures n > 0 && forall x <- used :: x < n
    decreases |used|
  {
    if used == {} {
      return 1;
    }
    var x :| x in used;
    var m := Unused(used - {x});
    n := Max(m, x + 1);
    assert used == (used - {x}) + {x};
  }

  /** With every other row locked elsewhere, a due row is reserved alone. */
  lemma ReservedAlone(t: Table, id: Id, now: Instant)
    requires Keyed(t) && id in t && Due(t[id], now)
    ensures AfterReserve(t, Batch(t, t[id].channel, now, BATCH, t.Keys - {id}), now, RESERVATION)
         == t[id := ReserveRow(t[id], now, RESERVATION)]
  {
    var free := DueIds(t, t[id].channel, now) - (t.Keys - {id});
    assert free == {id};
    var q := Ordered(t, free);
    OrderedLists(t, free);
    assert q == [q[0]] && q[0] in q;
    assert q == [id];
    assert q[..0] == [];
    hide ReserveRow, Due;
  }

  lemma ClaimStep(lib: Library, s: System, id: Id, now: Instant, w: WorkerId, token: Token)
    requires id in s.rows && Claimable(s.rows[id], now) && !Exhausted(s.rows[id], now)
    requires w !in s.workers && token !in s.tokens && token != NO_TOKEN
    ensures var step := Step.Claim(w, s.rows[id].channel, Notice(id), now, token, false, false);
            var copy := ClaimRow(s.rows[id], now, LEASE, token);
            && Possible(s, step) && PcOf(Next(lib, s, step), w) == Pc.Claimed(Notice(id), copy)
            && Next(lib, s, step).rows == s.rows[id := copy]
  {
    hide Recorded, ClaimRow, Exhausted, Claimable;
  }

  lemma CallSteps(lib: Library, s: System, w: WorkerId, e: Envelope, copy: Row, now: Instant)
    requires PcOf(s, w) == Pc.Claimed(e, copy)
    ensures Possible(s, Step.Call(w, now))
    ensures var s' := Next(lib, s, Step.Call(w, now));
            && s'.rows == s.rows && Possible(s', Step.Return(w, Delivered, now))
            && var s'' := Next(lib, s', Step.Return(w, Delivered, now));
               s''.rows == s.rows && PcOf(s'', w) == Called(e, copy, Delivered)
  {
  }

  lemma FinishStep(lib: Library, s: System, w: WorkerId, now: Instant)
    requires PcOf(s, w).Called? && PcOf(s, w).outcome == Delivered
    requires var copy := PcOf(s, w).outbox; copy.id in s.rows && s.rows[copy.id] == copy && HoldsLease(copy, copy.leaseToken, now)
    ensures var step := Step.Finish(w, now, 0, false);
            var id := PcOf(s, w).outbox.id;
            Possible(s, step) && id in Next(lib, s, step).rows && Next(lib, s, step).rows[id].state == Sent
  {
    hide Recorded;
  }

  lemma ClaimedHolds(row: Row, now: Instant, token: Token)
    requires Claimable(row, now) && !Exhausted(row, now)
    ensures HoldsLease(ClaimRow(row, now, LEASE, token), token, now)
    ensures var copy := ClaimRow(row, now, LEASE, token); copy.id == row.id && copy.leaseToken == token
  {
  }

  /** Every reading these steps take is `now`. */
  predicate AllAt(steps: seq<Protocol.Step>, now: Instant) {
    forall step <- steps :: ReadingOf(step).Some? ==> ReadingOf(step).value == now
  }

  lemma AllFourAt(a: Protocol.Step, b: Protocol.Step, c: Protocol.Step, d: Protocol.Step, now: Instant)
    requires ReadingOf(a) == ReadingOf(b) == ReadingOf(c) == ReadingOf(d) == Some(now)
    ensures AllAt([a, b, c, d], now)
  {
  }

  lemma AllAtConcat(steps: seq<Protocol.Step>, more: seq<Protocol.Step>, now: Instant)
    requires AllAt(steps, now) && AllAt(more, now)
    ensures AllAt(steps + more, now)
  {
  }

  /** An attempt up to the provider's answer: claim, call, return, all at one reading. */
  lemma AttemptSteps(lib: Library, s: System, id: Id, now: Instant, w: WorkerId, token: Token)
      returns (claim: Protocol.Step, call: Protocol.Step, back: Protocol.Step)
    requires id in s.rows && Claimable(s.rows[id], now) && !Exhausted(s.rows[id], now)
    requires w !in s.workers && token !in s.tokens && token != NO_TOKEN
    ensures Possible(s, claim) && Possible(Next(lib, s, claim), call) && Possible(Next(lib, Next(lib, s, claim), call), back)
    ensures var s' := Next(lib, Next(lib, Next(lib, s, claim), call), back);
            var copy := ClaimRow(s.rows[id], now, LEASE, token);
            s'.rows == s.rows[id := copy] && PcOf(s', w) == Called(Notice(id), copy, Delivered)
    ensures ReadingOf(claim) == ReadingOf(call) == ReadingOf(back) == Some(now)
  {
    claim := Step.Claim(w, s.rows[id].channel, Notice(id), now, token, false, false);
    call, back := Step.Call(w, now), Step.Return(w, Delivered, now);
    hide Next, Possible, ClaimRow, Claimable, Exhausted;
    ClaimStep(lib, s, id, now, w, token);
    CallSteps(lib, Next(lib, s, claim), w, Notice(id), ClaimRow(s.rows[id], now, LEASE, token), now);
  }

  /** A claimable row that is not exhausted is delivered by the next worker whose provider takes it. */
  lemma AttemptDelivers(lib: Library, s: System, id: Id, now: Instant) returns (s': System, more: seq<Protocol.Step>)
    requires id in s.rows && s.rows[id].id == id && Claimable(s.rows[id], now) && !Exhausted(s.rows[id], now)
    ensures s' == Run(lib, s, more) && id in s'.rows && s'.rows[id].state == Sent && AllAt(more, now)
  {
    hide Next, Possible, ClaimRow, HoldsLease, Exhausted, Claimable, AllAt, Run;
    var w := Unused(s.workers.Keys);
    var token := Unused(s.tokens);
    ClaimedHolds(s.rows[id], now, token);
    var claim, call, back := AttemptSteps(lib, s, id, now, w, token);
    FinishStep(lib, Next(lib, Next(lib, Next(lib, s, claim), call), back), w, now);
    var finish := Step.Finish(w, now, 0, false);
    more := [claim, call, back, finish];
    AllFourAt(claim, call, back, finish, now);
    RunFour(lib, s, claim, call, back, finish);
    s' := Run(lib, s, more);
  }

  lemma RunFour(lib: Library, s: System, a: Protocol.Step, b: Protocol.Step, c: Protocol.Step, d: Protocol.Step)
    requires Possible(s, a) && Possible(Next(lib, s, a), b) && Possible(Next(lib, Next(lib, s, a), b), c)
    requires Possible(Next(lib, Next(lib, Next(lib, s, a), b), c), d)
    ensures Run(lib, s, [a, b, c, d]) == Next(lib, Next(lib, Next(lib, Next(lib, s, a), b), c), d)
  {
    hide Next, Possible;
    assert [] + [a] == [a] && [a] + [b] == [a, b] && [a, b] + [c] == [a, b, c] && [a, b, c] + [d] == [a, b, c, d];
    assert Run(lib, s, []) == s;
    RunOne(lib, s, [], a);
    assert Run(lib, s, [a]) == Next(lib, s, a);
    RunOne(lib, s, [a], b);
    assert Run(lib, s, [a, b]) == Next(lib, Next(lib, s, a), b);
    RunOne(lib, s, [a, b], c);
    assert Run(lib, s, [a, b, c]) == Next(lib, Next(lib, Next(lib, s, a), b), c);
    RunOne(lib, s, [a, b, c], d);
  }

  lemma RunOne(lib: Library, s: System, steps: seq<Protocol.Step>, step: Protocol.Step)
    requires Possible(Run(lib, s, steps), step)
    ensures Run(lib, s, steps + [step]) == Next(lib, Run(lib, s, steps), step)
  {
    assert (steps + [step])[..|steps + [step]| - 1] == steps;
  }

  lemma {:induction false} RunConcat(lib: Library, s: System, steps: seq<Protocol.Step>, more: seq<Protocol.Step>)
    ensures Run(lib, s, steps + more) == Run(lib, Run(lib, s, steps), more)
    decreases |more|
  {
    hide Next, Possible;
    if more == [] {
      assert steps + more == steps;
    } else {
      var less := more[..|more| - 1];
      assert (steps + more)[..|steps + more| - 1] == steps + less;
      RunConcat(lib, s, steps, less);
    }
  }

  /** Going on at one instant, no earlier than the readings so far, leaves the clocks in agreement. */
  lemma {:induction false} AgreeFurther(lib: Library, s0: System, steps: seq<Protocol.Step>, more: seq<Protocol.Step>,
                                        now: Instant, skew: Duration)
    requires skew >= 0 && ClocksAgree(lib, s0, steps, skew) && Run(lib, s0, steps).latest <= now + skew && AllAt(more, now)
    ensures ClocksAgree(lib, s0, steps + more, skew) && Run(lib, s0, steps + more).latest <= now + skew
    decreases |more|
  {
    hide Next, Possible;
    if more == [] {
      assert steps + more == steps;
    } else {
      var less, step := more[..|more| - 1], more[|more| - 1];
      assert (steps + more)[..|steps + more| - 1] == steps + less && (steps + more)[|steps + more| - 1] == step;
      AgreeFurther(lib, s0, steps, less, now, skew);
      var s := Run(lib, s0, steps + less);
      if Possible(s, step) { LatestAfter(lib, s, step); }
    }
  }

  /**
   * From any point of any run, at any reading at which a row is due, the run can go on so that the
   * row is Dead if its budget or age is spent at that reading, and Sent otherwise. It does not
   * matter which workers crashed, which notifications were lost, or who holds an expired lease. The
   * continuation takes no reading but that one, so clocks that agreed go on agreeing.
   */
  lemma AlwaysDeliverable(lib: Library, s0: System, steps: seq<Protocol.Step>, id: Id, now: Instant) returns (more: seq<Protocol.Step>)
    requires Start(s0) && id in Run(lib, s0, steps).rows && Due(Run(lib, s0, steps).rows[id], now)
    ensures id in Run(lib, s0, steps + more).rows
    ensures Run(lib, s0, steps + more).rows[id].state
         == if Exhausted(Run(lib, s0, steps).rows[id], now) then Dead else Sent
    ensures forall skew :: skew >= 0 && ClocksAgree(lib, s0, steps, skew) && Run(lib, s0, steps).latest <= now + skew
              ==> ClocksAgree(lib, s0, steps + more, skew)
  {
    hide Start;
    RunKeyed(lib, s0, steps);
    hide Run;
    var s', rest := DeliverFrom(lib, Run(lib, s0, steps), id, now);
    more := rest;
    RunConcat(lib, s0, steps, more);
    forall skew | skew >= 0 && ClocksAgree(lib, s0, steps, skew) && Run(lib, s0, steps).latest <= now + skew
      ensures ClocksAgree(lib, s0, steps + more, skew)
    {
      AgreeFurther(lib, s0, steps, more, now, skew);
    }
  }

  lemma ReserveStep(lib: Library, s: System, id: Id, now: Instant)
    requires Keyed(s.rows) && id in s.rows && Due(s.rows[id], now)
    ensures var step := Step.Reserve(s.rows[id].channel, now, s.rows.Keys - {id});
            Possible(s, step) && Next(lib, s, step).rows == s.rows[id := ReserveRow(s.rows[id], now, RESERVATION)]
  {
    ReservedAlone(s.rows, id, now);
    hide Batch, AfterReserve, ReserveRow, Recorded;
  }

  lemma ReservedIsClaimable(row: Row, now: Instant)
    requires Due(row, now)
    ensures if Exhausted(row, now) then ReserveRow(row, now, RESERVATION).state == Dead
            else Claimable(ReserveRow(row, now, RESERVATION), now) && !Exhausted(ReserveRow(row, now, RESERVATION), now)
    ensures ReserveRow(row, now, RESERVATION).id == row.id
  {
  }

  lemma DeliverFrom(lib: Library, s: System, id: Id, now: Instant) returns (s': System, more: seq<Protocol.Step>)
    requires Keyed(s.rows) && id in s.rows && Due(s.rows[id], now)
    ensures s' == Run(lib, s, more) && id in s'.rows && AllAt(more, now)
    ensures s'.rows[id].state == if Exhausted(s.rows[id], now) then Dead else Sent
  {
    assert s.rows[id].id == id;
    hide Next, Possible, Due, Exhausted, ReserveRow, Claimable, Keyed;
    var reserve := Step.Reserve(s.rows[id].channel, now, s.rows.Keys - {id});
    ReserveStep(lib, s, id, now);
    ReservedIsClaimable(s.rows[id], now);
    var s1 := Next(lib, s, reserve);
    RunOne(lib, s, [], reserve);
    assert [] + [reserve] == [reserve] && AllAt([reserve], now) && Run(lib, s, []) == s;
    hide AllAt, Run;
    if Exhausted(s.rows[id], now) {
      return s1, [reserve];
    }
    var s2, rest := AttemptDelivers(lib, s1, id, now);
    RunConcat(lib, s, [reserve], rest);
    AllAtConcat([reserve], rest, now);
    return s2, [reserve] + rest;
  }
}
