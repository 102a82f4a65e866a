/** The outbox table and its four transactions (internal/repository/outbox_repo). */
module Repository {
  import opened Base
  import opened Messages
  import opened Outbox

  type Table = map<Id, Row>

  /** The primary key of a row is its id. */
  predicate Keyed(t: Table) {
    forall id <- t :: t[id].id == id
  }

  // ---------- Create ----------

  /** The partial unique index on (channel, message_id). */
  ghost predicate UniqueKeys(t: Table) {
    forall a, b ::
      (a in t && b in t && t[a].messageId != "" && t[a].channel == t[b].channel && t[a].messageId == t[b].messageId)
      ==> a == b
  }

  predicate Conflicts(t: Table, id: Id, row: Row) {
    id in t && row.messageId != "" && t[id].channel == row.channel && t[id].messageId == row.messageId
  }

  datatype CreateResult = Stored(row: Row) | IdempotencyConflict

  /** INSERT ... ON CONFLICT DO NOTHING. */
  ghost function AfterCreate(t: Table, row: Row): Table {
    if exists id :: Conflicts(t, id, row) then t else t[row.id := row]
  }

  /** The answer: the new row, the row already under the key if it has the same fingerprint, or a conflict. */
  ghost function CreateAnswer(t: Table, row: Row): CreateResult {
    if id :| Conflicts(t, id, row) then
      if t[id].fingerprint == Unset || t[id].fingerprint != row.fingerprint then IdempotencyConflict else Stored(t[id])
    else Stored(row)
  }

  // ---------- ReserveDispatch ----------

  /** ORDER BY created_at, id. */
  predicate Earlier(a: Row, b: Row) {
    a.createdAt < b.createdAt || (a.createdAt == b.createdAt && a.id <= b.id)
  }

  predicate IsLeast(t: Table, ids: set<Id>, m: Id)
    requires ids <= t.Keys && m in t
  {
    forall x <- ids :: Earlier(t[m], t[x])
  }

  lemma LeastExists(t: Table, ids: set<Id>)
    requires ids != {} && ids <= t.Keys
    ensures exists m :: m in ids && IsLeast(t, ids, m)
    decreases |ids|
  {
    var y :| y in ids;
    var rest := ids - {y};
    assert ids == rest + {y};
    if rest != {} {
      LeastExists(t, rest);
      var m :| m in rest && IsLeast(t, rest, m);
      var least := if Earlier(t[m], t[y]) then m else y;
      assert IsLeast(t, ids, least);
    } else {
      assert IsLeast(t, ids, y);
    }
  }

  function Least(t: Table, ids: set<Id>): (m: Id)
    requires ids != {} && ids <= t.Keys && Keyed(t)
    ensures m in ids && IsLeast(t, ids, m)
  {
    LeastExists(t, ids);
    var m :| m in ids && IsLeast(t, ids, m);
    m
  }

  function Ordered(t: Table, ids: set<Id>): seq<Id>
    requires ids <= t.Keys && Keyed(t)
    decreases |ids|
  {
    if ids == {} then []
    else
      var m := Least(t, ids);
      [m] + Ordered(t, ids - {m})
  }

  ghost predicate Distinct(q: seq<Id>) {
    forall i, j :: 0 <= i < j < |q| ==> q[i] != q[j]
  }

  ghost predicate InOrder(t: Table, q: seq<Id>)
    requires forall x <- q :: x in t
  {
    forall i, j :: 0 <= i < j < |q| ==> Earlier(t[q[i]], t[q[j]])
  }

  /** Ordered lists exactly the given rows, each once, by (created_at, id). */
  lemma {:induction false} OrderedLists(t: Table, ids: set<Id>)
    requires ids <= t.Keys && Keyed(t)
    ensures |Ordered(t, ids)| == |ids|
    ensures forall x :: x in Ordered(t, ids) <==> x in ids
    ensures Distinct(Ordered(t, ids)) && InOrder(t, Ordered(t, ids))
    decreases |ids|
  {
    if ids != {} {
      OrderedLists(t, ids - {Least(t, ids)});
    }
  }

  function DueIds(t: Table, channel: Channel, now: Instant): set<Id> {
    set id | id in t && t[id].channel == channel && Due(t[id], now)
  }

  /** The rows a ReserveDispatch transaction locks: rows locked by others are passed over. */
  function Batch(t: Table, channel: Channel, now: Instant, limit: nat, locked: set<Id>): (q: seq<Id>)
    requires Keyed(t)
    ensures forall x <- q :: x in t
  {
    var all := Ordered(t, DueIds(t, channel, now) - locked);
    OrderedLists(t, DueIds(t, channel, now) - locked);
    all[..Min(limit, |all|)]
  }

  lemma TakeSome(t: Table, all: seq<Id>, n: nat)
    requires n <= |all| && Distinct(all) && (forall x <- all :: x in t) && InOrder(t, all)
    ensures Distinct(all[..n]) && (forall x <- all[..n] :: x in all && x in t) && InOrder(t, all[..n])
  {
    assert forall i :: 0 <= i < n ==> all[..n][i] == all[i];
  }

  lemma BatchPicks(t: Table, channel: Channel, now: Instant, limit: nat, locked: set<Id>)
    requires Keyed(t)
    ensures |Batch(t, channel, now, limit, locked)| <= limit
    ensures Distinct(Batch(t, channel, now, limit, locked)) && InOrder(t, Batch(t, channel, now, limit, locked))
    ensures forall x <- Batch(t, channel, now, limit, locked) :: x in DueIds(t, channel, now) && x !in locked
  {
    var free := DueIds(t, channel, now) - locked;
    OrderedLists(t, free);
    TakeSome(t, Ordered(t, free), Min(limit, |Ordered(t, free)|));
  }

  lemma StrictlyOrdered(t: Table, q: seq<Id>)
    requires Keyed(t) && Distinct(q) && (forall x <- q :: x in t) && InOrder(t, q)
    ensures forall i, j | 0 <= i < j < |q| ::
              t[q[i]].createdAt < t[q[j]].createdAt || (t[q[i]].createdAt == t[q[j]].createdAt && q[i] < q[j])
  {
    forall i, j | 0 <= i < j < |q|
      ensures t[q[i]].createdAt < t[q[j]].createdAt || (t[q[i]].createdAt == t[q[j]].createdAt && q[i] < q[j])
    {
      assert Earlier(t[q[i]], t[q[j]]) && q[i] != q[j];
    }
  }

  /**
   * A batch holds at most `limit` rows, each once, by (created_at, id): rows of the channel that no
   * one else has locked and that wait for nothing, or whose lease has run out.
   */
  lemma BatchSelects(t: Table, channel: Channel, now: Instant, limit: nat, locked: set<Id>)
    requires Keyed(t)
    ensures var q := Batch(t, channel, now, limit, locked);
            && |q| <= limit
            && (forall x <- q ::
                  && t[x].channel == channel && x !in locked
                  && (if t[x].state == Sending then t[x].leaseUntil.None? || t[x].leaseUntil.value <= now
                      else && (t[x].state == Pending || t[x].state == Failed)
                           && (t[x].nextRetryAt.Some? ==> t[x].nextRetryAt.value <= now)
                           && (t[x].dispatchAfter.Some? ==> t[x].dispatchAfter.value <= now)))
            && forall i, j | 0 <= i < j < |q| ::
                 t[q[i]].createdAt < t[q[j]].createdAt || (t[q[i]].createdAt == t[q[j]].createdAt && q[i] < q[j])
  {
    BatchPicks(t, channel, now, limit, locked);
    hide Batch, Ordered;
    StrictlyOrdered(t, Batch(t, channel, now, limit, locked));
    hide Distinct, InOrder;
  }

  /** A row listed but not among the first n comes after them. */
  lemma TakenFirst(t: Table, all: seq<Id>, n: nat, x: Id)
    requires n <= |all| && Distinct(all) && (forall y <- all :: y in t) && Keyed(t) && InOrder(t, all)
    requires x in all && x !in all[..n]
    ensures forall y <- all[..n] :: t[y].createdAt < t[x].createdAt || (t[y].createdAt == t[x].createdAt && y < x)
  {
    StrictlyOrdered(t, all);
    assert all == all[..n] + all[n..];
    assert x in all[n..];
    var k :| 0 <= k < |all[n..]| && all[n..][k] == x;
    assert all[n + k] == x;
    forall y <- all[..n]
      ensures t[y].createdAt < t[x].createdAt || (t[y].createdAt == t[x].createdAt && y < x)
    {
      var i :| 0 <= i < n && all[i] == y;
    }
  }

  /**
   * Nothing due is passed over: a free row of the channel that is due (it waits for nothing, or its
   * lease has run out) is in the batch, or the batch is full of rows that come before it.
   */
  lemma BatchComplete(t: Table, channel: Channel, now: Instant, limit: nat, locked: set<Id>, x: Id)
    requires Keyed(t) && x in t && x !in locked && t[x].channel == channel
    requires if t[x].state == Sending then t[x].leaseUntil.None? || t[x].leaseUntil.value <= now
             else && !Terminal(t[x])
                  && (t[x].nextRetryAt.Some? ==> t[x].nextRetryAt.value <= now)
                  && (t[x].dispatchAfter.Some? ==> t[x].dispatchAfter.value <= now)
    ensures x in Batch(t, channel, now, limit, locked)
            || (&& |Batch(t, channel, now, limit, locked)| == limit
                && forall y <- Batch(t, channel, now, limit, locked) ::
                     t[y].createdAt < t[x].createdAt || (t[y].createdAt == t[x].createdAt && y < x))
  {
    var free := DueIds(t, channel, now) - locked;
    OrderedLists(t, free);
    assert x in free;
    var all := Ordered(t, free);
    if x !in all[..Min(limit, |all|)] {
      assert all[..|all|] == all;
      TakenFirst(t, all, Min(limit, |all|), x);
    }
  }

  lemma {:induction false} SubsetSize(a: set<Id>, b: set<Id>)
    requires a <= b
    ensures |a| <= |b|
    decreases |a|
  {
    if a != {} {
      var x :| x in a;
      SubsetSize(a - {x}, b - {x});
    }
  }

  /** With a limit that covers the table and no locks, a batch is all that is due on the channel. */
  lemma WholeBatch(t: Table, channel: Channel, now: Instant)
    requires Keyed(t)
    ensures forall x :: x in Batch(t, channel, now, |t|, {}) <==> x in t && t[x].channel == channel && Due(t[x], now)
  {
    var due := DueIds(t, channel, now);
    assert due - {} == due;
    OrderedLists(t, due);
    SubsetSize(due, t.Keys);
    var all := Ordered(t, due);
    assert all[..|all|] == all && |all| <= |t|;
    hide Due, Ordered;
  }

  /** The table once every row of the batch has been written. */
  function AfterReserve(t: Table, batch: seq<Id>, now: Instant, interval: Duration): Table {
    if batch == [] then t
    else
      var id := batch[|batch| - 1];
      var s := AfterReserve(t, batch[..|batch| - 1], now, interval);
      if id in t then s[id := ReserveRow(t[id], now, interval)] else s
  }

  /** Row by row: the batch is reserved or retired, every other row is as it was. */
  lemma {:induction false} AfterReserveAt(t: Table, batch: seq<Id>, now: Instant, interval: Duration)
    ensures AfterReserve(t, batch, now, interval).Keys == t.Keys
    ensures forall id <- t ::
              AfterReserve(t, batch, now, interval)[id] == if id in batch then ReserveRow(t[id], now, interval) else t[id]
  {
    if batch != [] {
      AfterReserveAt(t, batch[..|batch| - 1], now, interval);
      assert batch == batch[..|batch| - 1] + [batch[|batch| - 1]];
    }
  }

  /** The reserved rows handed to the relay: those of the batch that are not exhausted, in batch order. */
  function Reservations(t: Table, batch: seq<Id>, now: Instant, interval: Duration): seq<Row> {
    if batch == [] then []
    else
      var id := batch[|batch| - 1];
      Reservations(t, batch[..|batch| - 1], now, interval)
      + if id in t && !Exhausted(t[id], now) then [ReserveRow(t[id], now, interval)] else []
  }

  /** What a reservation writes keeps the row's id. */
  lemma ReserveKeepsId(row: Row, now: Instant, interval: Duration)
    ensures ReserveRow(row, now, interval).id == row.id && ReserveRow(row, now, interval).createdAt == row.createdAt
  {
  }

  /** Rows by (created_at, id), each once. */
  ghost predicate Sequenced(rows: seq<Row>) {
    forall i, j | 0 <= i < j < |rows| ::
      rows[i].createdAt < rows[j].createdAt || (rows[i].createdAt == rows[j].createdAt && rows[i].id < rows[j].id)
  }

  lemma SequencedExtend(rows: seq<Row>, row: Row)
    requires Sequenced(rows)
    requires forall r <- rows :: r.createdAt < row.createdAt || (r.createdAt == row.createdAt && r.id < row.id)
    ensures Sequenced(rows + [row])
  {
    forall i, j | 0 <= i < j < |rows + [row]|
      ensures var a, b := (rows + [row])[i], (rows + [row])[j];
              a.createdAt < b.createdAt || (a.createdAt == b.createdAt && a.id < b.id)
    {
      assert rows[i] in rows;
    }
  }

  lemma {:induction false} ReservationsFrom(t: Table, batch: seq<Id>, now: Instant, interval: Duration)
    requires Keyed(t) && forall x <- batch :: x in t
    ensures forall x <- batch :: !Exhausted(t[x], now) ==> ReserveRow(t[x], now, interval) in Reservations(t, batch, now, interval)
    ensures forall r <- Reservations(t, batch, now, interval) ::
              r.id in batch && !Exhausted(t[r.id], now) && r == ReserveRow(t[r.id], now, interval)
  {
    if batch != [] {
      hide Exhausted, ReserveRow;
      var rest, last := batch[..|batch| - 1], batch[|batch| - 1];
      ReservationsFrom(t, rest, now, interval);
      ReserveKeepsId(t[last], now, interval);
      assert batch == rest + [last];
    }
  }

  lemma {:induction false} ReservationsSequenced(t: Table, batch: seq<Id>, now: Instant, interval: Duration)
    requires Keyed(t) && (forall x <- batch :: x in t)
    requires forall i, j | 0 <= i < j < |batch| ::
               t[batch[i]].createdAt < t[batch[j]].createdAt || (t[batch[i]].createdAt == t[batch[j]].createdAt && batch[i] < batch[j])
    ensures Sequenced(Reservations(t, batch, now, interval))
  {
    if batch != [] {
      hide Exhausted, ReserveRow, Sequenced;
      var rest, last := batch[..|batch| - 1], batch[|batch| - 1];
      ReservationsSequenced(t, rest, now, interval);
      ReservationsFrom(t, rest, now, interval);
      ReserveKeepsId(t[last], now, interval);
      forall r <- Reservations(t, rest, now, interval)
        ensures r.createdAt < t[last].createdAt || (r.createdAt == t[last].createdAt && r.id < last)
      {
        ReserveKeepsId(t[r.id], now, interval);
        var k :| 0 <= k < |rest| && rest[k] == r.id;
        assert batch[k] == r.id;
      }
      SequencedExtend(Reservations(t, rest, now, interval), ReserveRow(t[last], now, interval));
    }
  }

  /**
   * The answer, said without how it is built: of the batch exactly the rows that are not exhausted, as
   * they are now stored, by (created_at, id), so each once.
   */
  lemma ReservationsAre(t: Table, batch: seq<Id>, now: Instant, interval: Duration)
    requires Keyed(t) && (forall x <- batch :: x in t) && Distinct(batch) && InOrder(t, batch)
    ensures var after := AfterReserve(t, batch, now, interval);
            var answer := Reservations(t, batch, now, interval);
            && after.Keys == t.Keys
            && (forall x <- batch :: !Exhausted(t[x], now) <==> after[x] in answer)
            && (forall r <- answer :: r.id in batch && after[r.id] == r)
            && (forall i, j | 0 <= i < j < |answer| ::
                  answer[i].createdAt < answer[j].createdAt
                  || (answer[i].createdAt == answer[j].createdAt && answer[i].id < answer[j].id))
  {
    hide Exhausted, ReserveRow;
    StrictlyOrdered(t, batch);
    hide Distinct, InOrder;
    AfterReserveAt(t, batch, now, interval);
    ReservationsFrom(t, batch, now, interval);
    ReservationsSequenced(t, batch, now, interval);
    assert Sequenced(Reservations(t, batch, now, interval));
    forall x <- batch
      ensures !Exhausted(t[x], now) <==> AfterReserve(t, batch, now, interval)[x] in Reservations(t, batch, now, interval)
    {
      ReserveKeepsId(t[x], now, interval);
    }
  }

  /** What is written to each row of the batch, column by column. */
  lemma ReservedColumns(t: Table, batch: seq<Id>, now: Instant, interval: Duration)
    requires forall x <- batch :: x in t
    ensures forall x <- batch ::
              x in AfterReserve(t, batch, now, interval) &&
              var was, row := t[x], AfterReserve(t, batch, now, interval)[x];
              if Exhausted(was, now)
              then row == was.(state := Dead, leaseToken := NO_TOKEN, leaseUntil := None, nextRetryAt := None,
                          dispatchAfter := None, lastError := "delivery retry budget or age exhausted")
              else if was.state == Sending
              then row == was.(state := Failed, leaseToken := NO_TOKEN, leaseUntil := None, nextRetryAt := Some(now),
                          dispatchAfter := Some(now + interval), lastError := "previous delivery outcome unknown")
              else row == was.(dispatchAfter := Some(now + interval))
  {
    AfterReserveAt(t, batch, now, interval);
  }

  /** A row of the batch that the loop has not reached yet still holds what the query read. */
  lemma StillAsRead(t: Table, batch: seq<Id>, i: nat, now: Instant, interval: Duration)
    requires i < |batch| && Distinct(batch) && batch[i] in t
    ensures batch[i] in AfterReserve(t, batch[..i], now, interval)
    ensures AfterReserve(t, batch[..i], now, interval)[batch[i]] == t[batch[i]]
  {
    AfterReserveAt(t, batch[..i], now, interval);
    assert batch[i] !in batch[..i];
  }

  // ---------- Claim and Finish ----------

  /** NotClaimable is the nil result: the notification was early, late or a duplicate. */
  datatype ClaimResult = NotFound | NotClaimable | Claimed(outbox: Row)

  /** The row Claim finds: another transaction's lock makes a row invisible. */
  predicate Visible(t: Table, id: Id, channel: Channel, locked: bool) {
    id in t && t[id].channel == channel && !locked
  }

  function AfterClaim(t: Table, id: Id, channel: Channel, now: Instant, lease: Duration, token: Token, locked: bool): Table {
    if Visible(t, id, channel, locked) && Claimable(t[id], now) then t[id := ClaimRow(t[id], now, lease, token)] else t
  }

  function ClaimAnswer(t: Table, id: Id, channel: Channel, now: Instant, lease: Duration, token: Token, locked: bool): ClaimResult {
    if !Visible(t, id, channel, locked) then NotFound
    else if Claimable(t[id], now) && !Exhausted(t[id], now) then Claimed(ClaimRow(t[id], now, lease, token))
    else NotClaimable
  }

  /** The fence: the guarded UPDATE matches a row. */
  predicate FinishAccepted(t: Table, outbox: Row, now: Instant) {
    outbox.id in t && HoldsLease(t[outbox.id], outbox.leaseToken, now)
  }

  function AfterFinish(t: Table, outbox: Row, now: Instant): Table {
    if FinishAccepted(t, outbox, now)
    then t[outbox.id := Updates(t[outbox.id], TransitionValues(Completion(outbox, now)))]
    else t
  }

  // ---------- The transactions in place ----------

  class OutboxTable {
    var rows: Table

    constructor ()
      ensures rows == map[]
    {
      rows := map[];
    }

    method Create(outbox: Row, id: Id, createdAt: Instant) returns (result: CreateResult)
      requires id !in rows && UniqueKeys(rows)
      modifies this
      ensures UniqueKeys(rows)
      ensures rows == AfterCreate(old(rows), outbox.(id := id, createdAt := createdAt))
      ensures result == CreateAnswer(old(rows), outbox.(id := id, createdAt := createdAt))
      ensures outbox.messageId == "" || (forall k <- old(rows) ::
                old(rows)[k].channel != outbox.channel || old(rows)[k].messageId != outbox.messageId)
              ==> var row := outbox.(id := id, createdAt := createdAt);
                  rows == old(rows)[id := row] && result == Stored(row)
      ensures forall k <- old(rows) |
                outbox.messageId != "" && old(rows)[k].channel == outbox.channel && old(rows)[k].messageId == outbox.messageId ::
                && rows == old(rows)
                && result == if old(rows)[k].fingerprint == Unset || old(rows)[k].fingerprint != outbox.fingerprint
                             then IdempotencyConflict else Stored(old(rows)[k])
    {
      var row := outbox.(id := id, createdAt := createdAt);
      var affected := 0;
      if row.messageId == "" || forall k <- rows :: !Conflicts(rows, k, row) {
        rows := rows[row.id := row];
        affected := 1;
      }
      if affected == 0 {
        var k :| k in rows && Conflicts(rows, k, row);
        var existing := rows[k];
        if row.messageId == "" || existing.fingerprint == Unset || existing.fingerprint != row.fingerprint {
          return IdempotencyConflict;
        }
        return Stored(existing);
      }
      return Stored(row);
    }

    method ReserveDispatch(channel: Channel, now: Instant, interval: Duration, limit: nat, locked: set<Id>)
      returns (result: seq<Row>)
      requires Keyed(rows)
      modifies this
      ensures var batch := Batch(old(rows), channel, now, limit, locked);
              && rows.Keys == old(rows).Keys
              && (forall id <- rows ::
                    rows[id] == if id in batch then ReserveRow(old(rows)[id], now, interval) else old(rows)[id])
              && rows == AfterReserve(old(rows), batch, now, interval)
              && result == Reservations(old(rows), batch, now, interval)
      ensures var batch := Batch(old(rows), channel, now, limit, locked);
              forall x <- batch ::
                var was, row := old(rows)[x], rows[x];
                if Exhausted(was, now)
                then row == was.(state := Dead, leaseToken := NO_TOKEN, leaseUntil := None, nextRetryAt := None,
                            dispatchAfter := None, lastError := "delivery retry budget or age exhausted")
                else if was.state == Sending
                then row == was.(state := Failed, leaseToken := NO_TOKEN, leaseUntil := None, nextRetryAt := Some(now),
                            dispatchAfter := Some(now + interval), lastError := "previous delivery outcome unknown")
                else row == was.(dispatchAfter := Some(now + interval))
      ensures var batch := Batch(old(rows), channel, now, limit, locked);
              && (forall x <- batch :: !Exhausted(old(rows)[x], now) <==> rows[x] in result)
              && (forall r <- result :: r.id in batch && rows[r.id] == r)
      ensures forall i, j | 0 <= i < j < |result| ::
                result[i].createdAt < result[j].createdAt || (result[i].createdAt == result[j].createdAt && result[i].id < result[j].id)
    {
      result := [];
      var batch := Batch(rows, channel, now, limit, locked);
      BatchPicks(rows, channel, now, limit, locked);
      ghost var before := rows;
      for i := 0 to |batch|
        invariant rows == AfterReserve(before, batch[..i], now, interval)
        invariant result == Reservations(before, batch[..i], now, interval)
      {
        assert batch[..i + 1][..i] == batch[..i] && batch[..i + 1][i] == batch[i];
        StillAsRead(before, batch, i, now, interval);
        var row := rows[batch[i]];
        if Exhausted(row, now) {
          row := MakeDead(row);
        } else {
          if row.state == Sending {
            row := row.(state := Failed, lastError := UNKNOWN_ERROR, leaseToken := NO_TOKEN, leaseUntil := None,
                   nextRetryAt := Some(now));
          }
          row := row.(dispatchAfter := Some(now + interval));
          result := result + [row];
        }
        rows := rows[batch[i] := Updates(rows[batch[i]], TransitionValues(row))];
      }
      assert batch[..|batch|] == batch;
      AfterReserveAt(before, batch, now, interval);
      ReservationsAre(before, batch, now, interval);
      ReservedColumns(before, batch, now, interval);
      hide Batch, AfterReserve, Reservations, ReserveRow, Exhausted, MakeDead, Distinct, InOrder, Keyed;
    }

    method Claim(id: Id, channel: Channel, now: Instant, lease: Duration, token: Token, locked: bool)
      returns (result: ClaimResult)
      modifies this
      ensures rows == AfterClaim(old(rows), id, channel, now, lease, token, locked)
      ensures result == ClaimAnswer(old(rows), id, channel, now, lease, token, locked)
      ensures result.NotFound? <==> locked || id !in old(rows) || old(rows)[id].channel != channel
      ensures var waiting :=
                && !result.NotFound? && (old(rows)[id].state == Pending || old(rows)[id].state == Failed)
                && (old(rows)[id].nextRetryAt.Some? ==> old(rows)[id].nextRetryAt.value <= now);
              && (result.Claimed? <==> waiting && !Exhausted(old(rows)[id], now))
              && rows == if !waiting then old(rows)
                         else if Exhausted(old(rows)[id], now)
                         then old(rows)[id := old(rows)[id].(state := Dead, leaseToken := NO_TOKEN, leaseUntil := None,
                                        nextRetryAt := None, dispatchAfter := None,
                                        lastError := "delivery retry budget or age exhausted")]
                         else old(rows)[id := old(rows)[id].(state := Sending, attempts := old(rows)[id].attempts + 1,
                                        retryCount := old(rows)[id].attempts, leaseToken := token, leaseUntil := Some(now + lease))]
      ensures result.Claimed? ==> result.outbox == rows[id]
    {
      if !Visible(rows, id, channel, locked) {
        return NotFound;
      }
      var row := rows[id];
      if row.state != Pending && row.state != Failed {
        return NotClaimable;
      }
      if row.nextRetryAt.Some? && now < row.nextRetryAt.value {
        return NotClaimable;
      }
      result := NotClaimable;
      if Exhausted(row, now) {
        row := MakeDead(row);
      } else {
        row := row.(state := Sending, attempts := row.attempts + 1);
        row := row.(retryCount := row.attempts - 1);
        row := row.(leaseToken := token, leaseUntil := Some(now + lease));
        result := Claimed(row);
      }
      rows := rows[id := Updates(rows[id], TransitionValues(row))];
    }

    /** `ok` is false for ErrLeaseLost: no row matched. */
    method Finish(outbox: Row, now: Instant) returns (ok: bool)
      modifies this
      ensures ok <==> FinishAccepted(old(rows), outbox, now)
      ensures rows == AfterFinish(old(rows), outbox, now)
      ensures ok <==>
                && outbox.id in old(rows) && old(rows)[outbox.id].state == Sending
                && old(rows)[outbox.id].leaseToken == outbox.leaseToken
                && old(rows)[outbox.id].leaseUntil.Some? && now < old(rows)[outbox.id].leaseUntil.value
      ensures rows == if !ok then old(rows) else old(rows)[outbox.id := old(rows)[outbox.id].(
                state := outbox.state, attempts := outbox.attempts, retryCount := outbox.retryCount,
                leaseToken := NO_TOKEN, leaseUntil := None, dispatchAfter := None,
                nextRetryAt := if outbox.state == Sent || outbox.state == Dead then None else outbox.nextRetryAt,
                lastError := if outbox.state == Sent then "" else outbox.lastError,
                sentAt := if outbox.state == Sent then Some(now) else outbox.sentAt)]
    {
      var row := outbox;
      var token := row.leaseToken;
      row := row.(leaseToken := NO_TOKEN, leaseUntil := None, dispatchAfter := None);
      if outbox.state == Sent {
        row := row.(sentAt := Some(now), nextRetryAt := None, lastError := "");
      } else if outbox.state == Dead {
        row := row.(nextRetryAt := None);
      }
      ok := row.id in rows && HoldsLease(rows[row.id], token, now);
      if ok {
        rows := rows[row.id := Updates(rows[row.id], TransitionValues(row))];
      }
    }
  }
}
