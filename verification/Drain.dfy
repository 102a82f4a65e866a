/** Repeated ReserveDispatch calls at one instant empty the due rows exactly (delivery.go). */
module Drain {
  import opened Base
  import opened Messages
  import opened Outbox
  import opened Repository

  /** The least row of a set is the only one of its kind. */
  lemma LeastIs(t: Table, ids: set<Id>, m: Id)
    requires ids <= t.Keys && Keyed(t) && m in ids && IsLeast(t, ids, m)
    ensures Least(t, ids) == m
  {
    var l := Least(t, ids);
    assert Earlier(t[l], t[m]) && Earlier(t[m], t[l]);
  }

  /** The order depends on creation time and id alone. */
  lemma {:induction false} OrderedSame(t: Table, t': Table, ids: set<Id>)
    requires ids <= t.Keys && ids <= t'.Keys && Keyed(t) && Keyed(t')
    requires forall id :: id in ids ==> t[id].createdAt == t'[id].createdAt
    ensures Ordered(t, ids) == Ordered(t', ids)
    decreases |ids|
  {
    if ids != {} {
      var m := Least(t, ids);
      assert forall x :: x in ids ==> Earlier(t[m], t[x]) && t[x].id == t'[x].id;
      LeastIs(t', ids, m);
      OrderedSame(t, t', ids - {m});
    }
  }

  function Elements(q: seq<Id>): set<Id> {
    set x | x in q
  }

  lemma WithoutHead(ids: set<Id>, q: seq<Id>, k: nat)
    requires 0 < k <= |q|
    ensures ids - Elements(q[..k]) == (ids - {q[0]}) - Elements(q[1..][..k - 1])
  {
    assert q[..k] == [q[0]] + q[1..][..k - 1];
  }

  lemma OrderedTail(t: Table, ids: set<Id>)
    requires ids <= t.Keys && Keyed(t) && Ordered(t, ids) != []
    ensures Ordered(t, ids)[0] in ids
    ensures Ordered(t, ids)[1..] == Ordered(t, ids - {Ordered(t, ids)[0]})
  {
  }

  /** Taking the first k away leaves the rest in the same order. */
  lemma {:induction false} OrderedRest(t: Table, ids: set<Id>, q: seq<Id>, k: nat)
    requires ids <= t.Keys && Keyed(t) && q == Ordered(t, ids) && k <= |q|
    ensures Ordered(t, ids - Elements(q[..k])) == q[k..]
    decreases k
  {
    if k == 0 {
      assert ids - Elements(q[..0]) == ids;
      return;
    }
    OrderedTail(t, ids);
    OrderedRest(t, ids - {q[0]}, q[1..], k - 1);
    WithoutHead(ids, q, k);
    assert q[1..][k - 1..] == q[k..];
  }

  /** A reserved row is not due again at the same instant. */
  lemma ReservedNotDue(row: Row, now: Instant, interval: Duration)
    requires interval > 0
    ensures !Due(ReserveRow(row, now, interval), now)
  {
  }

  /** `calls` transactions at one instant, none of them passing over a lock. */
  function AfterCalls(t: Table, channel: Channel, now: Instant, interval: Duration, limit: nat, calls: nat): (r: Table)
    requires Keyed(t)
    ensures Keyed(r)
  {
    if calls == 0 then t
    else
      var s := AfterCalls(t, channel, now, interval, limit, calls - 1);
      AfterReserveAt(s, Batch(s, channel, now, limit, {}), now, interval);
      AfterReserve(s, Batch(s, channel, now, limit, {}), now, interval)
  }

  /** The rows those calls hand out, one call after the other. */
  function HandedOut(t: Table, channel: Channel, now: Instant, interval: Duration, limit: nat, calls: nat): seq<Row>
    requires Keyed(t)
  {
    if calls == 0 then []
    else
      var s := AfterCalls(t, channel, now, interval, limit, calls - 1);
      HandedOut(t, channel, now, interval, limit, calls - 1)
      + Reservations(s, Batch(s, channel, now, limit, {}), now, interval)
  }

  lemma {:induction false} ReservationsAppend(t: Table, a: seq<Id>, b: seq<Id>, now: Instant, interval: Duration)
    ensures Reservations(t, a + b, now, interval) == Reservations(t, a, now, interval) + Reservations(t, b, now, interval)
  {
    if b == [] {
      assert a + b == a;
    } else {
      var b' := b[..|b| - 1];
      ReservationsAppend(t, a, b', now, interval);
      assert (a + b)[..|a + b| - 1] == a + b';
    }
  }

  lemma {:induction false} ReservationsFrame(t: Table, t': Table, batch: seq<Id>, now: Instant, interval: Duration)
    requires forall x :: x in batch ==> x in t && x in t' && t[x] == t'[x]
    ensures Reservations(t, batch, now, interval) == Reservations(t', batch, now, interval)
  {
    if batch != [] {
      ReservationsFrame(t, t', batch[..|batch| - 1], now, interval);
    }
  }

  /** The rows a call leaves due are those it did not take. */
  lemma StillDue(t: Table, channel: Channel, now: Instant, interval: Duration, batch: seq<Id>)
    requires Keyed(t) && interval > 0 && forall x <- batch :: x in DueIds(t, channel, now)
    ensures Keyed(AfterReserve(t, batch, now, interval))
    ensures DueIds(AfterReserve(t, batch, now, interval), channel, now) == DueIds(t, channel, now) - Elements(batch)
  {
    var t' := AfterReserve(t, batch, now, interval);
    AfterReserveAt(t, batch, now, interval);
    forall id | id in t'
      ensures t'[id].id == id
      ensures id in DueIds(t', channel, now) <==> id in DueIds(t, channel, now) && id !in batch
    {
      if id in batch { ReservedNotDue(t[id], now, interval); }
    }
  }

  /** One call takes the first `limit` due rows and leaves exactly the others due, in order. */
  lemma OneCall(t: Table, channel: Channel, now: Instant, interval: Duration, limit: nat, q: seq<Id>)
    requires Keyed(t) && interval > 0 && q == Ordered(t, DueIds(t, channel, now))
    ensures Batch(t, channel, now, limit, {}) == q[..Min(limit, |q|)]
    ensures var t' := AfterReserve(t, q[..Min(limit, |q|)], now, interval);
            Keyed(t') && Ordered(t', DueIds(t', channel, now)) == q[Min(limit, |q|)..]
  {
    var due := DueIds(t, channel, now);
    assert due - {} == due;
    OrderedLists(t, due);
    var batch := q[..Min(limit, |q|)];
    assert forall x <- batch :: x in q;
    StillDue(t, channel, now, interval, batch);
    OrderedRest(t, due, q, |batch|);
    AfterReserveAt(t, batch, now, interval);
    OrderedSame(t, AfterReserve(t, batch, now, interval), due - Elements(batch));
  }

  /** Reserving one batch after another is reserving both, when they share no row. */
  lemma {:induction false} AfterReserveTwice(t: Table, a: seq<Id>, b: seq<Id>, now: Instant, interval: Duration)
    requires forall x <- b :: x !in a
    ensures AfterReserve(AfterReserve(t, a, now, interval), b, now, interval) == AfterReserve(t, a + b, now, interval)
  {
    AfterReserveAt(t, a, now, interval);
    if b == [] {
      assert a + b == a;
    } else {
      var b' := b[..|b| - 1];
      AfterReserveTwice(t, a, b', now, interval);
      assert (a + b)[..|a + b| - 1] == a + b' && (a + b)[|a + b| - 1] == b[|b| - 1];
    }
  }

  /** How many of n due rows the calls take. */
  function Taken(calls: nat, limit: nat, n: nat): (k: nat)
    ensures k <= n
  {
    if calls == 0 then 0 else Taken(calls - 1, limit, n) + Min(limit, n - Taken(calls - 1, limit, n))
  }

  lemma {:induction false} TakenIs(calls: nat, limit: nat, n: nat)
    ensures Taken(calls, limit, n) == Min(calls * limit, n)
  {
    if calls > 0 {
      TakenIs(calls - 1, limit, n);
      assert calls * limit == (calls - 1) * limit + limit;
    }
  }

  /** The first k due rows have been reserved or retired and handed out once each; the rest are still due. */
  ghost predicate FirstTaken(t: Table, q: seq<Id>, k: nat, channel: Channel, now: Instant, interval: Duration,
                             after: Table, rows: seq<Row>)
    requires Keyed(after) && k <= |q|
  {
    && after == AfterReserve(t, q[..k], now, interval)
    && rows == Reservations(t, q[..k], now, interval)
    && Ordered(after, DueIds(after, channel, now)) == q[k..]
  }

  lemma NoneTaken(t: Table, q: seq<Id>, channel: Channel, now: Instant, interval: Duration)
    requires Keyed(t) && q == Ordered(t, DueIds(t, channel, now))
    ensures FirstTaken(t, q, 0, channel, now, interval, t, [])
  {
    assert AfterReserve(t, q[..0], now, interval) == t;
  }

  lemma TakeMore(t: Table, q: seq<Id>, j: nat, k: nat, channel: Channel, now: Instant, interval: Duration, limit: nat,
                 s: Table, rows: seq<Row>)
    requires Keyed(t) && Keyed(s) && interval > 0 && j <= |q| && k == j + Min(limit, |q| - j)
    requires q == Ordered(t, DueIds(t, channel, now))
    requires FirstTaken(t, q, j, channel, now, interval, s, rows)
    ensures var batch := Batch(s, channel, now, limit, {});
            && Keyed(AfterReserve(s, batch, now, interval))
            && FirstTaken(t, q, k, channel, now, interval, AfterReserve(s, batch, now, interval),
                          rows + Reservations(s, batch, now, interval))
  {
    OrderedLists(t, DueIds(t, channel, now));
    assert |q[j..]| == |q| - j;
    OneCall(s, channel, now, interval, limit, q[j..]);
    Slices(q, j, k);
    NextBatch(t, s, q, j, k, now, interval);
  }

  /** What `calls` transactions do, as FirstTaken states it. */
  ghost predicate CallsTake(t: Table, channel: Channel, now: Instant, interval: Duration, limit: nat, calls: nat)
    requires Keyed(t)
  {
    var q := Ordered(t, DueIds(t, channel, now));
    FirstTaken(t, q, Taken(calls, limit, |q|), channel, now, interval,
               AfterCalls(t, channel, now, interval, limit, calls),
               HandedOut(t, channel, now, interval, limit, calls))
  }

  lemma NextCallTakes(t: Table, channel: Channel, now: Instant, interval: Duration, limit: nat, calls: nat)
    requires Keyed(t) && interval > 0 && CallsTake(t, channel, now, interval, limit, calls)
    ensures CallsTake(t, channel, now, interval, limit, calls + 1)
  {
    var q := Ordered(t, DueIds(t, channel, now));
    TakeMore(t, q, Taken(calls, limit, |q|), Taken(calls + 1, limit, |q|), channel, now, interval, limit,
             AfterCalls(t, channel, now, interval, limit, calls), HandedOut(t, channel, now, interval, limit, calls));
  }

  lemma AllCallsTake(t: Table, channel: Channel, now: Instant, interval: Duration, limit: nat, calls: nat)
    requires Keyed(t) && interval > 0
    ensures CallsTake(t, channel, now, interval, limit, calls)
  {
    NoneTaken(t, Ordered(t, DueIds(t, channel, now)), channel, now, interval);
    for n := 0 to calls
      invariant CallsTake(t, channel, now, interval, limit, n)
    {
      NextCallTakes(t, channel, now, interval, limit, n);
    }
  }

  lemma TakenRows(t: Table, q: seq<Id>, k: nat, now: Instant, interval: Duration)
    requires Keyed(t) && k <= |q| && Distinct(q) && (forall x <- q :: x in t) && InOrder(t, q)
    ensures var after := AfterReserve(t, q[..k], now, interval);
            var rows := Reservations(t, q[..k], now, interval);
            && after.Keys == t.Keys
            && (forall id <- t :: after[id] == if id in q[..k] then ReserveRow(t[id], now, interval) else t[id])
            && (forall x <- q[..k] :: !Exhausted(t[x], now) <==> after[x] in rows)
            && (forall r <- rows :: r.id in q[..k] && after[r.id] == r)
            && (forall i, j | 0 <= i < j < |rows| ::
                  rows[i].createdAt < rows[j].createdAt || (rows[i].createdAt == rows[j].createdAt && rows[i].id < rows[j].id))
  {
    TakeSome(t, q, k);
    AfterReserveAt(t, q[..k], now, interval);
    ReservationsAre(t, q[..k], now, interval);
  }

  /** The due rows of the channel, each once, by (created_at, id). */
  lemma DueInOrder(t: Table, channel: Channel, now: Instant)
    requires Keyed(t)
    ensures var q := Ordered(t, DueIds(t, channel, now));
            && Distinct(q) && (forall x <- q :: x in t) && InOrder(t, q) && |q| == |DueIds(t, channel, now)|
            && (forall x :: x in q <==> x in t && t[x].channel == channel && Due(t[x], now))
            && (forall i, j | 0 <= i < j < |q| ::
                  t[q[i]].createdAt < t[q[j]].createdAt || (t[q[i]].createdAt == t[q[j]].createdAt && q[i] < q[j]))
  {
    OrderedLists(t, DueIds(t, channel, now));
    StrictlyOrdered(t, Ordered(t, DueIds(t, channel, now)));
    hide Due;
  }

  /**
   * After n calls exactly the first n * limit due rows, in (created_at, id) order, have been
   * reserved or retired. Handed out are, of these, just the rows that are not exhausted, as they are
   * now stored, each once and in that order. Every other row is as before, and the rows still due are
   * the remaining ones. So n calls drain the channel if and only if n * limit reaches the number of
   * due rows.
   */
  lemma Drains(t: Table, channel: Channel, now: Instant, interval: Duration, limit: nat, calls: nat,
               q: seq<Id>, k: int, after: Table, rows: seq<Row>)
    requires Keyed(t) && interval > 0
    requires q == Ordered(t, DueIds(t, channel, now)) && k == Min(calls * limit, |q|)
    requires after == AfterCalls(t, channel, now, interval, limit, calls)
    requires rows == HandedOut(t, channel, now, interval, limit, calls)
    ensures 0 <= k <= |q| && after.Keys == t.Keys
    ensures forall x :: x in q <==> x in t && t[x].channel == channel && Due(t[x], now)
    ensures forall i, j | 0 <= i < j < |q| ::
              t[q[i]].createdAt < t[q[j]].createdAt || (t[q[i]].createdAt == t[q[j]].createdAt && q[i] < q[j])
    ensures forall id <- t :: after[id] == if id in q[..k] then ReserveRow(t[id], now, interval) else t[id]
    ensures forall x <- q[..k] :: !Exhausted(t[x], now) <==> after[x] in rows
    ensures forall r <- rows :: r.id in q[..k] && after[r.id] == r
    ensures forall i, j | 0 <= i < j < |rows| ::
              rows[i].createdAt < rows[j].createdAt || (rows[i].createdAt == rows[j].createdAt && rows[i].id < rows[j].id)
    ensures forall x :: x in q[k..] <==> x in after && after[x].channel == channel && Due(after[x], now)
    ensures (forall x <- after :: after[x].channel == channel ==> !Due(after[x], now)) <==> |q| <= calls * limit
  {
    hide ReserveRow, Due, AfterReserve, Reservations, Exhausted, Ordered, Distinct, InOrder, AfterCalls, HandedOut, Taken;
    AllCallsTake(t, channel, now, interval, limit, calls);
    TakenIs(calls, limit, |q|);
    DueInOrder(t, channel, now);
    TakenRows(t, q, k, now, interval);
    DueInOrder(after, channel, now);
    hide DueIds, Keyed;
    if k < |q| { assert q[k] == q[k..][0] && q[k] in q[k..]; }
  }

  lemma Slices(q: seq<Id>, j: nat, k: nat)
    requires j <= k <= |q|
    ensures q[j..][..k - j] == q[j..k] && q[j..][k - j..] == q[k..]
    ensures q[..k] == q[..j] + q[j..k]
  {
  }

  lemma SliceApart(q: seq<Id>, j: nat, k: nat, x: Id)
    requires Distinct(q) && j <= k <= |q| && x in q[j..k]
    ensures x in q && x !in q[..j]
  {
    var b :| j <= b < k && q[b] == x;
    assert forall a :: 0 <= a < j ==> q[a] != q[b];
  }

  /** The k - j rows after the first j extend what the first j gave. */
  lemma NextBatch(t: Table, s: Table, q: seq<Id>, j: nat, k: nat, now: Instant, interval: Duration)
    requires Distinct(q) && j <= k <= |q| && (forall x <- q :: x in t)
    requires s == AfterReserve(t, q[..j], now, interval)
    ensures AfterReserve(s, q[j..k], now, interval) == AfterReserve(t, q[..k], now, interval)
    ensures Reservations(t, q[..j], now, interval) + Reservations(s, q[j..k], now, interval)
         == Reservations(t, q[..k], now, interval)
  {
    var a, b := q[..j], q[j..k];
    Slices(q, j, k);
    AfterReserveAt(t, a, now, interval);
    forall x | x in b
      ensures x !in a && x in t && x in s && s[x] == t[x]
    {
      SliceApart(q, j, k, x);
    }
    AfterReserveTwice(t, a, b, now, interval);
    ReservationsFrame(s, t, b, now, interval);
    ReservationsAppend(t, a, b, now, interval);
  }
}
