/**
 * Sequences of observations, as the monitor produces them run after run
 * (one per single-run invocation or per interval tick), and what they do to
 * the table and to the alerts: no alert repeats without a `registered`
 * observation in between, errors never touch state, and, when the clock
 * never goes backwards, the row invariants hold throughout.
 */
module Runs {

  import opened Wrappers
  import opened Rdap
  import opened Store

  /** One call of the record-and-alert step. */
  datatype Observation = Observation(domain: string, result: Status, now: nat)

  /** The table after the observations, applied in order. Rows are never deleted. */
  function Replay(table: Table, obs: seq<Observation>): (t: Table)
    ensures table.Keys <= t.Keys
    ensures NoErrorStored(table) ==> NoErrorStored(t)
    decreases |obs|
  {
    if obs == [] then table
    else
      var o := obs[0];
      Replay(Observed(table, o.domain, o.result, o.now), obs[1..])
  }

  /** How many of the observations raise an alert for `domain`. */
  function AlertCount(table: Table, domain: string, obs: seq<Observation>): nat
    decreases |obs|
  {
    if obs == [] then 0
    else
      var o := obs[0];
      (if o.domain == domain && Alerts(StoredStatus(table, domain), o.result) then 1 else 0)
      + AlertCount(Observed(table, o.domain, o.result, o.now), domain, obs[1..])
  }

  /** How many of the observations report `domain` as registered. */
  function RegisteredCount(domain: string, obs: seq<Observation>): nat
    decreases |obs|
  {
    if obs == [] then 0
    else (if obs[0].domain == domain && obs[0].result == Registered then 1 else 0) + RegisteredCount(domain, obs[1..])
  }

  /** The clock never goes backwards: every `now` is at least `clock` and at least the one before. */
  predicate Chronological(clock: nat, obs: seq<Observation>) {
    && (forall i :: 0 <= i < |obs| ==> clock <= obs[i].now)
    && (forall i, j :: 0 <= i < j < |obs| ==> obs[i].now <= obs[j].now)
  }

  /** The status of `domain` after one observation: only its own non-error observations change it. */
  lemma StoredStatusAfter(table: Table, domain: string, o: Observation)
    ensures StoredStatus(Observed(table, o.domain, o.result, o.now), domain) ==
      if o.domain == domain && o.result != Error then Some(o.result) else StoredStatus(table, domain)
  {
  }

  /**
   * Over any sequence, a domain alerts at most once plus once for each
   * `registered` observation of it, and the leading one is dropped when it
   * is already stored as `available`.
   */
  lemma {:induction false} AlertsBoundedByRegistrations(table: Table, domain: string, obs: seq<Observation>)
    ensures AlertCount(table, domain, obs) <=
      (if StoredStatus(table, domain) == Some(Available) then 0 else 1) + RegisteredCount(domain, obs)
    decreases |obs|
  {
    if obs != [] {
      var o := obs[0];
      var next := Observed(table, o.domain, o.result, o.now);
      StoredStatusAfter(table, domain, o);
      AlertsBoundedByRegistrations(next, domain, obs[1..]);
    }
  }

  /** A sequence with no `registered` observation of a domain alerts for it at most once. */
  lemma AtMostOneAlert(table: Table, domain: string, obs: seq<Observation>)
    requires forall i :: 0 <= i < |obs| && obs[i].domain == domain ==> obs[i].result != Registered
    ensures AlertCount(table, domain, obs) <= 1
    ensures StoredStatus(table, domain) == Some(Available) ==> AlertCount(table, domain, obs) == 0
  {
    NoRegistrations(domain, obs);
    AlertsBoundedByRegistrations(table, domain, obs);
  }

  lemma {:induction false} NoRegistrations(domain: string, obs: seq<Observation>)
    requires forall i :: 0 <= i < |obs| && obs[i].domain == domain ==> obs[i].result != Registered
    ensures RegisteredCount(domain, obs) == 0
    decreases |obs|
  {
    if obs != [] {
      assert obs[0].domain == domain ==> obs[0].result != Registered;
      NoRegistrations(domain, obs[1..]);
    }
  }

  /**
   * Once a domain is stored as `available` it stays so, whatever number of
   * errors and repeated `available` observations follow, and none of them
   * alerts.
   */
  lemma {:induction false} AvailableIsSticky(table: Table, domain: string, obs: seq<Observation>)
    requires StoredStatus(table, domain) == Some(Available)
    requires forall i :: 0 <= i < |obs| && obs[i].domain == domain ==> obs[i].result != Registered
    ensures StoredStatus(Replay(table, obs), domain) == Some(Available)
    ensures AlertCount(table, domain, obs) == 0
    decreases |obs|
  {
    if obs != [] {
      var o := obs[0];
      StoredStatusAfter(table, domain, o);
      AvailableIsSticky(Observed(table, o.domain, o.result, o.now), domain, obs[1..]);
    }
  }

  /** Errors alone never create, change or alert: after any number of them the table is as before. */
  lemma {:induction false} ErrorsLeaveTableUnchanged(table: Table, domain: string, obs: seq<Observation>)
    requires forall i :: 0 <= i < |obs| ==> obs[i].result == Error
    ensures Replay(table, obs) == table
    ensures AlertCount(table, domain, obs) == 0
    decreases |obs|
  {
    if obs != [] {
      assert obs[0].result == Error;
      ErrorsLeaveTableUnchanged(table, domain, obs[1..]);
    }
  }

  /** Observations of other domains leave a domain's row exactly as it was. */
  lemma {:induction false} OtherDomainsUntouched(table: Table, domain: string, obs: seq<Observation>)
    requires forall i :: 0 <= i < |obs| ==> obs[i].domain != domain
    ensures Existing(Replay(table, obs), domain) == Existing(table, domain)
    ensures AlertCount(table, domain, obs) == 0
    decreases |obs|
  {
    if obs != [] {
      var o := obs[0];
      assert o.domain != domain;
      OtherDomainsUntouched(Observed(table, o.domain, o.result, o.now), domain, obs[1..]);
    }
  }

  /**
   * With a clock that never goes backwards, every row keeps
   * `updatedAt <= lastCheckedAt`, and no row is later than the last observation.
   */
  lemma {:induction false} ReplayKeepsTimesOrdered(table: Table, clock: nat, obs: seq<Observation>)
    requires TimesOrdered(table, clock)
    requires Chronological(clock, obs)
    ensures TimesOrdered(Replay(table, obs), if obs == [] then clock else obs[|obs| - 1].now)
    decreases |obs|
  {
    if obs != [] {
      var o := obs[0];
      ObservedKeepsTimesOrdered(table, o.domain, o.result, clock, o.now);
      var rest := obs[1..];
      assert Chronological(o.now, rest) by {
        forall i | 0 <= i < |rest| ensures o.now <= rest[i].now {
          assert rest[i] == obs[i + 1];
        }
        forall i, j | 0 <= i < j < |rest| ensures rest[i].now <= rest[j].now {
          assert rest[i] == obs[i + 1] && rest[j] == obs[j + 1];
        }
      }
      ReplayKeepsTimesOrdered(Observed(table, o.domain, o.result, o.now), o.now, rest);
      if rest != [] {
        assert rest[|rest| - 1] == obs[|obs| - 1];
      }
    }
  }

  /** Running two sequences one after the other is running their concatenation, alerts included. */
  lemma {:induction false} ReplaySplit(table: Table, domain: string, a: seq<Observation>, b: seq<Observation>)
    ensures Replay(table, a + b) == Replay(Replay(table, a), b)
    ensures AlertCount(table, domain, a + b) == AlertCount(table, domain, a) + AlertCount(Replay(table, a), domain, b)
    decreases |a|
  {
    if a == [] {
      assert a + b == b;
    } else {
      var o := a[0];
      assert (a + b)[0] == o && (a + b)[1..] == a[1..] + b;
      ReplaySplit(Observed(table, o.domain, o.result, o.now), domain, a[1..], b);
    }
  }

  lemma {:induction false} RegisteredWitness(domain: string, obs: seq<Observation>)
    requires RegisteredCount(domain, obs) > 0
    ensures exists i :: 0 <= i < |obs| && obs[i].domain == domain && obs[i].result == Registered
    decreases |obs|
  {
    if !(obs[0].domain == domain && obs[0].result == Registered) {
      RegisteredWitness(domain, obs[1..]);
      var i :| 0 <= i < |obs[1..]| && obs[1..][i].domain == domain && obs[1..][i].result == Registered;
      assert obs[i + 1] == obs[1..][i];
    }
  }

  /**
   * Alerts are separated by `registered` observations: whatever happened
   * before (`a`), a stretch of observations (`b`) that alerts twice for a
   * domain holds a `registered` observation of that domain.
   */
  lemma AlertsSeparatedByRegistration(table: Table, domain: string, a: seq<Observation>, b: seq<Observation>)
    requires AlertCount(table, domain, a + b) - AlertCount(table, domain, a) >= 2
    ensures exists i :: 0 <= i < |b| && b[i].domain == domain && b[i].result == Registered
  {
    ReplaySplit(table, domain, a, b);
    AlertsBoundedByRegistrations(Replay(table, a), domain, b);
    RegisteredWitness(domain, b);
  }

  /**
   * Without a clock that moves forward the row invariant fails. In
   * continuous mode the clock is read before a lookup that has no timeout,
   * and the timer can start the next check while one is still waiting, so
   * a check that read the clock earlier can write last. Its write moves
   * `lastCheckedAt` backwards below `updatedAt`, and a stale `registered`
   * overwrites a fresher `available`. That stale write re-arms the alert,
   * so the next `available` check alerts a second time for one real
   * transition.
   */
  lemma OverlappingChecksBreakRowOrder()
    ensures var t := Replay(map["d" := Record(Registered, 0, 0)],
                            [Observation("d", Available, 600), Observation("d", Available, 0)]);
            "d" in t && t["d"].updatedAt > t["d"].lastCheckedAt
    ensures var t := Replay(map[], [Observation("d", Available, 600), Observation("d", Registered, 0)]);
            "d" in t && t["d"].status == Registered && t["d"].lastCheckedAt < 600
    ensures AlertCount(map[], "d", [Observation("d", Available, 600), Observation("d", Registered, 0),
                                    Observation("d", Available, 1200)]) == 2
  {
  }
}
