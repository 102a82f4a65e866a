/** The one-time migration of a legacy table (outbox_repo/migrate.go). */
module Migration {
  import opened Base
  import opened Outbox
  import opened Repository
  import opened Retry
  import opened RowMachine
  import opened Protocol

  datatype MigrationResult = Migrated | AlreadyApplied | DuplicateKeys | UnfingerprintedKeys

  const PAGE: nat := 100

  /** The columns the migration writes to one row. */
  function Backfilled(row: Row, maxAge: Duration): Row {
    var eligible := if row.nextRetryAt.Some? then row.nextRetryAt.value else row.createdAt;
    var r := row.(eligibleAt := eligible,
             retryDeadline := if maxAge > 0 then Some(eligible + maxAge) else None,
             attempts := if row.state == Pending then 0 else row.retryCount + 1);
    if row.state == Sending then r.(leaseUntil := Some(0)) else r
  }

  function AllBackfilled(t: Table, maxAge: Duration): Table {
    map id | id in t :: Backfilled(t[id], maxAge)
  }

  predicate Unfingerprinted(row: Row) {
    row.messageId != "" && row.fingerprint == Unset
  }

  predicate SameKey(a: Row, b: Row) {
    a.messageId != "" && a.channel == b.channel && a.messageId == b.messageId
  }

  /** GROUP BY channel, message_id HAVING COUNT(*) > 1. */
  predicate HasDuplicates(t: Table) {
    exists a <- t, b <- t :: a != b && SameKey(t[a], t[b])
  }

  class Database {
    var rows: Table
    var applied: bool

    constructor (rows: Table)
      ensures this.rows == rows && !applied
    {
      this.rows, applied := rows, false;
    }

    /** The callback FindInBatches runs on one page of rows; `ok` is false when it meets a keyed row without fingerprint. */
    method BackfillPage(ghost saved: Table, keys: seq<Id>, from: nat, end: nat, maxAge: Duration) returns (ok: bool)
      requires Distinct(keys) && from <= end <= |keys| && PartlyBackfilled(saved, rows, keys, from, maxAge)
      modifies this`rows
      ensures ok ==> PartlyBackfilled(saved, rows, keys, end, maxAge)
      ensures ok <==> forall k :: from <= k < end ==> keys[k] in saved && !Unfingerprinted(saved[keys[k]])
    {
      hide Backfilled, PartlyBackfilled, Distinct;
      var i := from;
      while i < end
        invariant from <= i <= end && PartlyBackfilled(saved, rows, keys, i, maxAge)
        invariant forall k :: from <= k < i ==> keys[k] in saved && !Unfingerprinted(saved[keys[k]])
      {
        BackfillNext(saved, rows, keys, i, maxAge);
        var row := rows[keys[i]];
        if row.messageId != "" && row.fingerprint == Unset {
          assert Unfingerprinted(saved[keys[i]]);
          return false;
        }
        row := BackfillRow(row, maxAge);
        rows := rows[keys[i] := row];
        i := i + 1;
      }
      return true;
    }

    /**
     * One transaction. FindInBatches visits the rows page by page in primary-key order; `keys` is
     * that order. A failure rolls the table back.
     */
    method Migrate(maxAge: Duration, keys: seq<Id>) returns (result: MigrationResult)
      requires Distinct(keys) && forall id :: id in keys <==> id in rows
      modifies this
      ensures old(applied) ==> result == AlreadyApplied && rows == old(rows) && applied
      ensures !old(applied) ==>
                result == if HasDuplicates(old(rows)) then DuplicateKeys
                          else if exists id <- old(rows) :: Unfingerprinted(old(rows)[id]) then UnfingerprintedKeys
                          else Migrated
      ensures result == DuplicateKeys <==>
                !old(applied) && exists a <- old(rows), b <- old(rows) ::
                  && a != b && old(rows)[a].messageId != ""
                  && old(rows)[a].channel == old(rows)[b].channel && old(rows)[a].messageId == old(rows)[b].messageId
      ensures result == Migrated ==> forall id <- old(rows) :: old(rows)[id].messageId != "" ==> old(rows)[id].fingerprint != Unset
      ensures result == UnfingerprintedKeys ==>
                exists id <- old(rows) :: old(rows)[id].messageId != "" && old(rows)[id].fingerprint == Unset
      ensures result == Migrated ==>
                && rows.Keys == old(rows).Keys
                && forall id <- rows ::
                     var was := old(rows)[id];
                     var eligible := if was.nextRetryAt.Some? then was.nextRetryAt.value else was.createdAt;
                     rows[id] == was.(eligibleAt := eligible,
                                 retryDeadline := if maxAge > 0 then Some(eligible + maxAge) else None,
                                 attempts := if was.state == Pending then 0 else was.retryCount + 1,
                                 leaseUntil := if was.state == Sending then Some(0) else was.leaseUntil)
      ensures !old(applied) && result == Migrated ==> applied && rows == AllBackfilled(old(rows), maxAge)
      ensures result != Migrated ==> rows == old(rows) && applied == old(applied)
    {
      hide Backfilled, HasDuplicates, PartlyBackfilled, AllBackfilled, Distinct, Unfingerprinted;
      MigratedColumns(rows, maxAge);
      RefusedColumns(rows);
      if applied {
        return AlreadyApplied;
      }
      if HasDuplicates(rows) {
        return DuplicateKeys;
      }
      var saved := rows;
      BackfillStart(saved, keys, maxAge);
      var page := 0;
      while page < |keys|
        invariant page <= |keys| && PartlyBackfilled(saved, rows, keys, page, maxAge)
        invariant forall k :: 0 <= k < page ==> keys[k] in saved && !Unfingerprinted(saved[keys[k]])
        invariant !applied && saved == old(rows)
      {
        var end := Min(page + PAGE, |keys|);
        var ok := BackfillPage(saved, keys, page, end, maxAge);
        if !ok {
          ghost var k :| page <= k < end && Unfingerprinted(saved[keys[k]]);
          assert keys[k] in keys;
          rows := saved;
          return UnfingerprintedKeys;
        }
        page := end;
      }
      BackfillDone(saved, rows, keys, maxAge);
      applied := true;
      return Migrated;
    }
  }

  /** The backfill of every row, column by column. */
  lemma MigratedColumns(t: Table, maxAge: Duration)
    ensures AllBackfilled(t, maxAge).Keys == t.Keys
    ensures forall id <- t ::
              var was := t[id];
              var eligible := if was.nextRetryAt.Some? then was.nextRetryAt.value else was.createdAt;
              AllBackfilled(t, maxAge)[id] == was.(eligibleAt := eligible,
                                              retryDeadline := if maxAge > 0 then Some(eligible + maxAge) else None,
                                              attempts := if was.state == Pending then 0 else was.retryCount + 1,
                                              leaseUntil := if was.state == Sending then Some(0) else was.leaseUntil)
  {
  }

  /** The two refusals, column by column. */
  lemma RefusedColumns(t: Table)
    ensures HasDuplicates(t) <==> exists a <- t, b <- t ::
              a != b && t[a].messageId != "" && t[a].channel == t[b].channel && t[a].messageId == t[b].messageId
    ensures (exists id <- t :: Unfingerprinted(t[id])) <==> exists id <- t :: t[id].messageId != "" && t[id].fingerprint == Unset
  {
    if a, b :| a in t && b in t && a != b && t[a].messageId != "" && t[a].channel == t[b].channel && t[a].messageId == t[b].messageId {
      assert SameKey(t[a], t[b]);
    }
    if id :| id in t && t[id].messageId != "" && t[id].fingerprint == Unset {
      assert Unfingerprinted(t[id]);
    }
  }

  method BackfillRow(row: Row, maxAge: Duration) returns (r: Row)
    ensures r == Backfilled(row, maxAge)
  {
    var eligible := row.createdAt;
    if row.nextRetryAt.Some? {
      eligible := row.nextRetryAt.value;
    }
    var deadline := None;
    if maxAge > 0 {
      deadline := Some(eligible + maxAge);
    }
    var attempts := 0;
    if row.state != Pending {
      attempts := row.retryCount + 1;
    }
    r := row.(eligibleAt := eligible, retryDeadline := deadline, attempts := attempts);
    if row.state == Sending {
      r := r.(leaseUntil := Some(0));
    }
  }

  /** The first i rows in key order are backfilled, the others are as saved. */
  ghost predicate PartlyBackfilled(saved: Table, rows: Table, keys: seq<Id>, i: nat, maxAge: Duration)
    requires i <= |keys|
  {
    && rows.Keys == saved.Keys && (forall id <- keys :: id in saved)
    && (forall id <- saved :: rows[id] == if id in keys[..i] then Backfilled(saved[id], maxAge) else saved[id])
  }

  lemma BackfillStart(saved: Table, keys: seq<Id>, maxAge: Duration)
    requires forall id <- keys :: id in saved
    ensures PartlyBackfilled(saved, saved, keys, 0, maxAge)
  {
  }

  lemma BackfillNext(saved: Table, rows: Table, keys: seq<Id>, i: nat, maxAge: Duration)
    requires Distinct(keys) && i < |keys| && PartlyBackfilled(saved, rows, keys, i, maxAge)
    ensures keys[i] in saved && keys[i] in rows && rows[keys[i]] == saved[keys[i]]
    ensures PartlyBackfilled(saved, rows[keys[i] := Backfilled(saved[keys[i]], maxAge)], keys, i + 1, maxAge)
  {
    assert keys[i] in keys && keys[i] !in keys[..i];
    assert keys[..i + 1] == keys[..i] + [keys[i]];
    hide Backfilled;
  }

  lemma BackfillDone(saved: Table, rows: Table, keys: seq<Id>, maxAge: Duration)
    requires PartlyBackfilled(saved, rows, keys, |keys|, maxAge) && forall id <- saved :: id in keys
    ensures rows == AllBackfilled(saved, maxAge)
  {
    assert keys[..|keys|] == keys;
    hide Backfilled;
  }

  /**
   * A row of an earlier release: the reservation column this release adds is empty, and a
   * fingerprint, if the column was there, is of the row's own content.
   */
  predicate Legacy(row: Row) {
    row.dispatchAfter.None? && Faithful(row)
  }

  lemma BackfilledRow(row: Row, maxAge: Duration)
    requires Legacy(row)
    ensures MigratedRow(Backfilled(row, maxAge)) && Faithful(Backfilled(row, maxAge))
    ensures Backfilled(row, maxAge).id == row.id
    ensures Backfilled(row, maxAge).channel == row.channel && Backfilled(row, maxAge).messageId == row.messageId
  {
  }

  /**
   * A legacy row caught mid-delivery is recoverable at once and can never be finished: at every
   * reading from the epoch on ReserveDispatch selects it and no token passes the fence.
   */
  lemma LegacySendingRecoverable(row: Row, maxAge: Duration, now: Instant, token: Token)
    requires row.state == Sending && now >= 0
    ensures Due(Backfilled(row, maxAge), now) && !HoldsLease(Backfilled(row, maxAge), token, now)
  {
  }

  lemma LegacySendings(t: Table, maxAge: Duration)
    ensures var t' := AllBackfilled(t, maxAge);
            && (forall id, later | id in t && t[id].state == Sending && later >= 0 :: id in DueIds(t', t[id].channel, later))
            && (forall outbox: Row, later | outbox.id in t && t[outbox.id].state == Sending && later >= 0 ::
                  !FinishAccepted(t', outbox, later))
  {
    forall id, later, token | id in t && t[id].state == Sending && later >= 0
      ensures Due(Backfilled(t[id], maxAge), later) && !HoldsLease(Backfilled(t[id], maxAge), token, later)
    {
      LegacySendingRecoverable(t[id], maxAge, later, token);
    }
    hide Due, HoldsLease;
  }

  lemma BackfilledKeys(t: Table, maxAge: Duration)
    requires !HasDuplicates(t) && forall id <- t :: Legacy(t[id])
    ensures UniqueKeys(AllBackfilled(t, maxAge))
  {
    forall a, b | a in t && b in t && t[a].messageId != "" && t[a].channel == t[b].channel && t[a].messageId == t[b].messageId
      ensures a == b
    {
      assert SameKey(t[a], t[b]);
    }
    forall id <- t { BackfilledRow(t[id], maxAge); }
    hide Backfilled, HasDuplicates;
  }

  /**
   * An accepted legacy table, migrated, is one a protocol run may start on. Every row caught
   * mid-delivery is due for recovery at every reading from the epoch on, and no worker can finish it.
   */
  lemma MigrationStartsProtocol(t: Table, maxAge: Duration, now: Instant) returns (s: System)
    requires Keyed(t) && (forall id <- t :: Legacy(t[id])) && !HasDuplicates(t) && now >= 0
    ensures s.rows == AllBackfilled(t, maxAge) && s.latest == now && Start(s)
    ensures forall id, later | id in t && t[id].state == Sending && later >= 0 :: id in DueIds(s.rows, t[id].channel, later)
    ensures forall outbox: Row, later | outbox.id in t && t[outbox.id].state == Sending && later >= 0 ::
              !FinishAccepted(s.rows, outbox, later)
  {
    var t' := AllBackfilled(t, maxAge);
    s := System(t', map[], {}, map id | id in t' :: [Entry(RowOp.Backfill, t'[id])], [], {}, [], [], now);
    BackfilledKeys(t, maxAge);
    forall id <- t { BackfilledRow(t[id], maxAge); }
    LegacySendings(t, maxAge);
    hide Backfilled, UniqueKeys, MigratedRow, Faithful, Legacy, HasDuplicates, DueIds, FinishAccepted;
  }

  /** Other columns, terminal states and budgets survive: the backfill touches what it names and no more. */
  lemma BackfillFrame(row: Row, maxAge: Duration)
    ensures var r := Backfilled(row, maxAge);
            && r.state == row.state && r.payload == row.payload && r.fingerprint == row.fingerprint
            && r.maxRetries == row.maxRetries && r.retryCount == row.retryCount && r.sentAt == row.sentAt
            && r.nextRetryAt == row.nextRetryAt && r.lastError == row.lastError
            && r.eligibleAt == (if row.nextRetryAt.Some? then row.nextRetryAt.value else row.createdAt)
            && r.attempts == (if row.state == Pending then 0 else row.retryCount + 1)
            && (r.retryDeadline.Some? <==> maxAge > 0)
            && (maxAge > 0 ==> r.retryDeadline.value - r.eligibleAt == maxAge)
            && (row.state == Pending || row.state == Failed ==> forall now :: Due(r, now) <==> Due(row, now))
            && Backfilled(r, maxAge) == r
  {
  }

  /**
   * The age of a legacy row counts from its retry time, or from its creation if it had none: a row
   * within its retry limit is given up exactly when that much time has passed since.
   */
  lemma BackfilledAge(row: Row, maxAge: Duration, now: Instant)
    requires row.maxRetries < 0 || row.state == Pending || row.retryCount < row.maxRetries
    ensures var since := if row.nextRetryAt.Some? then row.nextRetryAt.value else row.createdAt;
            && Backfilled(row, maxAge).eligibleAt == since
            && (Exhausted(Backfilled(row, maxAge), now) <==> maxAge > 0 && since + maxAge <= now)
  {
  }

  /** A legacy row over its budget is retired the first time it is considered, never attempted. */
  lemma LegacyOverBudget(row: Row, maxAge: Duration, op: RowOp)
    requires row.state == Failed && row.maxRetries >= 0 && row.retryCount >= row.maxRetries
    requires Enabled(Backfilled(row, maxAge), op)
    ensures RowMachine.Step(Backfilled(row, maxAge), op).state == Dead
  {
  }

  /**
   * A migrated row may bring a negative retry count. A failed attempt on it can be finished within
   * its lease exactly when the row was pending or had counted no lower than -2; below that its retry
   * delay shifts by a negative count, on which Go panics.
   */
  lemma NegativeCounts(row: Row, maxAge: Duration, now: Instant, token: Token)
    requires row.state == Pending || row.state == Failed
    requires Claimable(Backfilled(row, maxAge), now) && !Exhausted(Backfilled(row, maxAge), now)
    ensures forall later, error, draw | later < now + LEASE ::
              (Enabled(ClaimRow(Backfilled(row, maxAge), now, LEASE, token), RowOp.Finish(later, token, Rejected(error), draw))
               <==> row.state == Pending || row.retryCount >= -2)
  {
  }
}
