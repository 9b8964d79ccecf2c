/**
 * The `domain_status` table and the read-modify-write that records one
 * observation of a domain and decides whether to raise an alert.
 *
 * The table is keyed by the unique `domain` column; a row holds the stored
 * status and two timestamps. Timestamps are natural numbers in the unit the
 * table stores.
 */
module Store {

  import opened Wrappers
  import opened Rdap

  /** One row of `domain_status`, without its surrogate `id`. */
  datatype Record = Record(status: Status, lastCheckedAt: nat, updatedAt: nat)

  /** The whole table: unique domain name to its row. */
  type Table = map<string, Record>

  /** The row stored for `domain`, if any. */
  function Existing(table: Table, domain: string): Option<Record> {
    if domain in table then Some(table[domain]) else None
  }

  /** The status stored for `domain`; `None` plays JavaScript's `null`. */
  function StoredStatus(table: Table, domain: string): Option<Status> {
    if domain in table then Some(table[domain].status) else None
  }

  /**
   * The alert condition: the previous status was not `available` and the
   * new one is. A missing row counts as not `available`.
   */
  function Alerts(previous: Option<Status>, result: Status): (fires: bool)
    ensures fires <==> result == Available && (previous.None? || previous.value == Registered || previous.value == Error)
  {
    match previous
    case None => result == Available
    case Some(stored) => stored != Available && result == Available
  }

  /**
   * The row written for a non-error result: an update of the existing row,
   * or an insert when there is none.
   */
  function Upsert(existing: Option<Record>, result: Status, now: nat): (r: Record)
    ensures r.status == result && r.lastCheckedAt == now
    ensures existing.None? ==> r.updatedAt == now
    ensures existing.Some? && existing.value.status != result ==> r.updatedAt == now
    ensures existing.Some? && existing.value.status == result ==> r.updatedAt == existing.value.updatedAt
  {
    match existing
    case None => Record(result, now, now)
    case Some(row) => Record(result, now, if row.status != result then now else row.updatedAt)
  }

  /**
   * The table after observing `result` for `domain` at time `now`: an error
   * is discarded; otherwise exactly the row of `domain` is written.
   */
  function Observed(table: Table, domain: string, result: Status, now: nat): (t: Table)
    ensures result == Error ==> t == table
    ensures result != Error ==> t.Keys == table.Keys + {domain}
    ensures result != Error ==> t[domain] == Upsert(Existing(table, domain), result, now)
    ensures forall k :: k in table && k != domain ==> k in t && t[k] == table[k]
  {
    if result == Error then table
    else table[domain := Upsert(Existing(table, domain), result, now)]
  }

  /** No stored status is `error`. */
  predicate NoErrorStored(table: Table) {
    forall k :: k in table ==> table[k].status != Error
  }

  /** Every row has `updatedAt <= lastCheckedAt <= clock`. */
  predicate TimesOrdered(table: Table, clock: nat) {
    forall k :: k in table ==> table[k].updatedAt <= table[k].lastCheckedAt <= clock
  }

  /**
   * The state machine of one row, as the caller sees it: what the new
   * stored status is and when `updatedAt` moves. This is the caller-facing
   * corollary of the contracts of `Observed` and `Upsert`, stated on the
   * table rather than on the written record.
   */
  lemma ObservedRow(table: Table, domain: string, result: Status, now: nat)
    requires result != Error
    ensures StoredStatus(Observed(table, domain, result, now), domain) == Some(result)
    ensures Observed(table, domain, result, now)[domain].lastCheckedAt == now
    ensures domain !in table ==> Observed(table, domain, result, now)[domain].updatedAt == now
    ensures domain in table ==>
      (Observed(table, domain, result, now)[domain].updatedAt ==
       if table[domain].status != result then now else table[domain].updatedAt)
  {
  }

  /** An observation keeps every stored status free of `error`. */
  lemma ObservedKeepsNoError(table: Table, domain: string, result: Status, now: nat)
    requires NoErrorStored(table)
    ensures NoErrorStored(Observed(table, domain, result, now))
  {
  }

  /** With a clock that does not go backwards, an observation keeps the timestamps ordered. */
  lemma ObservedKeepsTimesOrdered(table: Table, domain: string, result: Status, clock: nat, now: nat)
    requires TimesOrdered(table, clock) && clock <= now
    ensures TimesOrdered(Observed(table, domain, result, now), now)
  {
  }

  /**
   * The alert fires exactly when the stored row was missing or not
   * `available` and the lookup says `available`.
   */
  lemma AlertsIffBecomesAvailable(table: Table, domain: string, result: Status)
    requires NoErrorStored(table)
    ensures Alerts(StoredStatus(table, domain), result) <==>
      result == Available && (domain !in table || table[domain].status == Registered)
  {
  }

  /** Re-observing `available` on an `available` row changes nothing but `lastCheckedAt`. */
  lemma AvailableAgainDoesNotAlert(table: Table, domain: string, now: nat)
    requires StoredStatus(table, domain) == Some(Available)
    ensures !Alerts(StoredStatus(table, domain), Available)
    ensures Observed(table, domain, Available, now)[domain] == table[domain].(lastCheckedAt := now)
  {
  }

  /** The `domain_status` table as a mutable object. */
  class StatusTable {

    var rows: Table

    ghost predicate Valid()
      reads this
    {
      NoErrorStored(rows)
    }

    /** An empty table, as created on first start. */
    constructor ()
      ensures Valid() && rows == map[]
    {
      rows := map[];
    }

    /** The select by `domain`. */
    method Find(domain: string) returns (row: Option<Record>)
      ensures row == Existing(rows, domain)
    {
      if domain in rows {
        row := Some(rows[domain]);
      } else {
        row := None;
      }
    }

    /**
     * Records the classified `result` for `domain` at `now`. An `error`
     * returns before the row is even read, so `previous` is `None` then.
     * Otherwise the row is updated or inserted and `previous` is the status
     * read before the write. `alert` says whether to notify.
     */
    method RecordObservation(domain: string, result: Status, now: nat) returns (previous: Option<Status>, alert: bool)
      requires Valid()
      modifies this
      ensures Valid()
      ensures rows == Observed(old(rows), domain, result, now)
      ensures previous == if result == Error then None else StoredStatus(old(rows), domain)
      ensures alert <==> Alerts(StoredStatus(old(rows), domain), result)
    {
      if result == Error {
        return None, false;
      }
      var existing := Find(domain);
      previous := if existing.Some? then Some(existing.value.status) else None;
      if existing.Some? {
        var updatedAt := if previous != Some(result) then now else existing.value.updatedAt;
        rows := rows[domain := Record(result, now, updatedAt)];
      } else {
        rows := rows[domain := Record(result, now, now)];
      }
      alert := previous != Some(Available) && result == Available;
    }

    /**
     * One check of `domain`: classify the lookup outcome, then record it.
     * `outcome` is the outcome of `LookupRequest(domain)`, the lookup of the
     * same domain whose row is written (or `TestMode`, when no lookup is
     * made). `now` is read before the lookup is made.
     */
    method CheckAndUpdate(domain: string, outcome: LookupOutcome, now: nat) returns (result: CheckResult, alert: bool)
      requires Valid()
      modifies this
      ensures Valid()
      ensures result == Classify(outcome)
      ensures rows == Observed(old(rows), domain, result.status, now)
      ensures alert <==> Alerts(StoredStatus(old(rows), domain), result.status)
    {
      result := Classify(outcome);
      var previous;
      previous, alert := RecordObservation(domain, result.status, now);
    }
  }
}
