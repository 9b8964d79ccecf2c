# domain-check: availability monitor, modelled in Dafny

domain-check watches one domain name and reports when it becomes available for
registration. Each check makes one RDAP lookup of the name (RFC 7480, RFC 9082), or
none in test mode, where the result is `available` outright, and classifies the answer as `available`, `registered` or `error`. It then records the
result in the `domain_status` table, which is keyed by the unique domain name. An alert
is raised when the stored status was not `available` and the new one is.

The model has four modules:

- `Wrappers` (wrappers.dfy): `Option`, which stands in for JavaScript's `null` and for a missing row.
- `Rdap` (rdap.dfy): the request sent for a domain and `Classify`, the pure classification
  of one lookup outcome. The outcome is test mode, an HTTP status code, or a fetch exception.
- `Store` (store.dfy): the `Record` row and the pure specification of one observation
  (`Upsert`, `Observed`, `Alerts`). It also holds `StatusTable`, a class that owns the
  table as a `map<string, Record>`. Its `RecordObservation` and `CheckAndUpdate` methods
  do the read-modify-write in place and are proved against that specification.
- `Runs` (runs.dfy): sequences of observations, one per run of the monitor, applied one
  after another. It proves that alerts for a domain do not repeat without a
  `registered` observation of it in between, and that errors never touch the table. It also proves that `updatedAt <= lastCheckedAt` holds at every step when
  each observation's `now` is no earlier than the one before. Without that hypothesis
  the invariant fails; `Runs.OverlappingChecksBreakRowOrder` gives the counterexample.

Timestamps are natural numbers in the unit the table stores. The caller passes in the
current time `now`, because the source reads the clock before the lookup.

What the code does, and does not do:
- The code makes exactly one lookup attempt. It has no retry and no exponential backoff:
  a 429, a 5xx or a fetch exception becomes `error` right away.
- Any status other than 404 and 2xx becomes `error`.
- The body of a 2xx response is never parsed.
- The code checks a single configured domain. It has no cycle over a list of domains
  and no health aggregator.
- On an `error` result the code returns before it reads the row. `RecordObservation`
  therefore returns `previous == None` in that case, not the stored status.

## Model

| member | source | states |
|---|---|---|
| Rdap.Classify | src/index.js:72-104 | Test mode gives `available`. A 404 gives `available` and any 2xx gives `registered`. Every other status and every fetch exception gives `error`, with both directions stated for each status. The `available` flag is true exactly when the status is `available`. |
| Rdap.RateLimitAndServerErrorsAreErrors | src/index.js:97-99 | 429 and every 5xx status classify as `error`; the code does not retry them. |
| Rdap.LookupRequest | src/index.js:80-85 | The lookup for a domain is a GET with `Accept: application/rdap+json`. Its URL, built at src/index.js:20, is the RDAP domain base followed by the name, so `RequestedDomain` recovers the name from it. |
| Rdap.RequestedDomain | src/index.js:20 | Inverse of the URL construction: it gives back a name exactly when the URL starts with the domain-lookup base, and then the URL is that base plus the name. |
| Store.Alerts | src/index.js:265 | An alert fires exactly when the result is `available` and the previous status is absent (`null`) or anything other than `available`. |
| Store.Upsert | src/index.js:244-261 | The written row has the new status and `lastCheckedAt == now`. An insert has `updatedAt == now`. An update sets `updatedAt` to `now` when the status changed and keeps the old value when it did not. |
| Store.Observed | src/index.js:229-262 | An `error` result leaves the table unchanged. Otherwise the key set gains only `domain`, whose row is the upsert. Every other row is unchanged. |
| Store.ObservedRow | src/index.js:244-261 | After a non-error observation the stored status is the result and `lastCheckedAt` is `now`. `updatedAt` is `now` for a new row or a changed status, and otherwise keeps its prior value. |
| Store.ObservedKeepsNoError | src/index.js:229-232 | No observation ever stores the status `error`. |
| Store.ObservedKeepsTimesOrdered | src/index.js:247-249 | If `now` is not before the table's clock, then `updatedAt <= lastCheckedAt <= now` holds for every row afterwards. |
| Store.AlertsIffBecomesAvailable | src/index.js:265 | On a table with no `error` rows, an alert fires exactly when the result is `available` and the domain had no row or a `registered` one. |
| Store.AvailableAgainDoesNotAlert | src/index.js:249 | Observing `available` again on an `available` row does not alert. It only moves `lastCheckedAt`; `updatedAt` and the status stay as they were. |
| Store.StatusTable.constructor | src/index.js:55-63 | A new table is empty and satisfies the invariant. |
| Store.StatusTable.Find | src/index.js:235-239 | The select by the unique `domain` column: returns the row of `domain` exactly when there is one (`Existing`), and changes nothing. |
| Store.StatusTable.RecordObservation | src/index.js:229-268 | Keeps the no-`error` invariant. The new table is `Observed` of the old one. `previous` is the status read before the write, or `None` when the result is `error`. `alert` follows the alert condition on the stored status. |
| Store.StatusTable.CheckAndUpdate | src/index.js:222-272 | Classifies the lookup outcome, then records it. The result is `Classify(outcome)`, the table is updated as `Observed`, and the alert follows the condition. |
| Runs.Replay | src/index.js:244-262 | Over any sequence of observations, rows are never deleted and a table without `error` rows stays without them. |
| Runs.StoredStatusAfter | src/index.js:229-252 | The stored status of a domain changes only when that domain itself gets a non-error observation, and then it becomes the result. |
| Runs.AlertsBoundedByRegistrations | src/index.js:265-268 | Alerts for a domain number at most one plus the number of times it is seen `registered`. The leading one is dropped when the domain is already stored as `available`. |
| Runs.AtMostOneAlert | src/index.js:265-268 | With no `registered` observation of a domain, it alerts at most once, and never if it is already `available`. |
| Runs.AvailableIsSticky | src/index.js:229-232 | Once a domain is stored as `available`, any number of `error` or `available` observations keep it `available` and raise no alert. |
| Runs.ErrorsLeaveTableUnchanged | src/index.js:229-232 | Any number of `error` results leave the table exactly as it was and raise no alert. With no row at the start, no row appears. |
| Runs.OtherDomainsUntouched | src/index.js:250-251 | Observations of other domains leave a domain's row as it was and never alert for it. |
| Runs.ReplaySplit | src/index.js:244-268 | Running one sequence of observations and then another gives the same table and the same alert count as running their concatenation. |
| Runs.AlertsSeparatedByRegistration | src/index.js:265-268 | After any history, a stretch of observations that alerts twice for a domain contains a `registered` observation of that domain. |
| Runs.OverlappingChecksBreakRowOrder | src/index.js:223-227 | When an earlier-started check writes last, as overlapping timer-driven checks allow, a row can end with `updatedAt > lastCheckedAt`, and a stale `registered` can overwrite a fresher `available`. That stale write re-arms the alert: available, stale registered, available alerts twice. |
| Runs.ReplayKeepsTimesOrdered | src/index.js:247-249 | With a clock that never goes backwards, every row keeps `updatedAt <= lastCheckedAt`, and no row is later than the last observation. |

## Left out

- The `fetch` itself: the network call is replaced by its outcome, which is a parameter of `Classify`.
- Logging (`console.log`, `console.error`) has no effect on state and is not modelled.
- `sendWebhookAlert` and `sendEmailAlert` (src/index.js:110-216) make HTTP POSTs to external services and only log their failures. An alert is modelled as the returned boolean.
- src/email-templates.js renders presentation text with locale- and time-zone-dependent dates. It is not part of this model.
- `initDatabase` (src/index.js:44-66) creates a directory, opens the SQLite database, runs the `CREATE TABLE` on the raw SQLite handle, and wraps that handle in the ORM. It is replaced by the in-memory map; the constructor gives the empty table.
- The surrogate `id` autoincrement column is not modelled. Nothing in the monitor reads it.
- Timestamps are modelled as natural numbers in the stored unit. The conversion from a JavaScript `Date` to that unit is not modelled.
- Configuration from environment variables and the `process.exit` on a missing `DOMAIN` (src/index.js:10-26) are left out. The domain, the test-mode flag and the clock are parameters.
- `main` (src/index.js:274-309) is left out: the interval timer, the single-run exit, and the overlapping invocations the timer allows. `Runs` treats successive checks as a sequence of observations applied one after another. The clock is read at src/index.js:223, before a lookup that has no timeout, and `setInterval` (src/index.js:297) can start a new check while one is still waiting. So checks can overlap, and a slower check that started earlier can write last. That write can move `lastCheckedAt` backwards, can break `updatedAt <= lastCheckedAt`, and can overwrite a fresher status with a stale one. A stale `registered` write also re-arms the alert, so a later `available` check alerts again for the same transition. The row-order invariant is proved only for observations in clock order (`Runs.ReplayKeepsTimesOrdered`). `Runs.OverlappingChecksBreakRowOrder` records the failure when they are not in order.
- SQLite failures are not modelled. In the source a throwing `db.update` or `db.insert` (src/index.js:245-261) rejects `checkAndUpdate` before any alert is sent, and in single-run mode the process then exits through src/index.js:306-309. The in-memory map write of the model cannot fail.
