# Item status tracking: transition engine and scan path, in Dafny

This project models the core of `scanning_service.py`, the service that
tracks manufactured items (identified by a UID) through their custody
statuses. The core has four parts.

- **Permission policy** (`policy.dfy`). This is the fixed `ROLE_ALLOWED` table from an employee's role to the statuses that role may assign. A role not in the table is denied everything.
- **Repository** (`records.dfy`). This holds the item rows, the append-only `statuses` audit log and the employee role lookup. It also holds the audit-log query behind "latest status" and the `UPDATE` of an item's current status.
- **Scan/lookup** (`lookup.dfy`). `/scan` returns the item details, an expiry day derived from manufacture date and warranty, and the latest audited status. When an item has no audit row, it falls back to the item's own `current_status`. `/allowed_statuses` returns an employee's role and that role's list. Both are functions of the stored state, so neither can change it.
- **Transition engine** (`engine.dfy`). `/update_status` runs an ordered cascade of checks:
  1. required fields;
  2. the employee's role (an unknown employee gets "Invalid employee");
  3. the policy (a refusal carries the role's full list).

  It then runs one transaction: append an audit row tagged `"MobileApp"`, set the item's `current_status`, and commit. A failure at any of the three steps rolls both writes back. The database is a `Store` class whose `employees` map, `items` map and `statuses` sequence the `UpdateStatus` method changes in place.

`properties.dfy` relates the operations to each other. `scenarios.dfy`
drives a store through sample request sequences.

Modelling decisions:
- Dates are integer day numbers and timestamps are integers. The request time `now` and the point where storage fails (`Failure`) are inputs to `UpdateStatus`.
- Request fields are `Option`s. `None` means absent or null. Python's falsiness is modelled explicitly: `""` and `0` count as missing (`Records.Given`, `Records.GivenId`). So does an employee row whose role is `""`.
- `ORDER BY updated_at DESC LIMIT 1` does not fix which row it returns when timestamps tie. The model picks the row appended last among those with the greatest timestamp (`Records.IsLatest`). `Records.LatestUnique` shows this choice is unique. The properties that connect a write to a later scan require the write to be timestamped strictly after every earlier row for its uid, so they hold whatever tie rule the database uses.

Behaviour kept as the code has it:
- A warranty of `0` is falsy, so the expiry is absent. It is not the manufacture day (scanning_service.py:76).
- Years are 365 days each, with no leap-year correction. For example, 2020-01-01 plus 2 years is 2021-12-31.
- `/update_status` never checks that the item exists. For an unknown UID, the audit row is still written unless the database refuses the INSERT (modelled by `InsertFails`), and the `UPDATE` matches no row, so there is no item-not-found outcome.
- An unknown employee gets 403 from `/update_status` (scanning_service.py:141-142) but 404 from `/allowed_statuses` (scanning_service.py:117-118).
- Statuses may be set in any order. The policy limits who may set a status, not which statuses may follow one another.

## Model

| member | source | states |
|---|---|---|
| `Policy.Allowed` | scanning_service.py:29-36 | A role outside the five listed ones gets the empty list (deny by default). Every listed role gets a non-empty list with no duplicates, drawn from the nine statuses. |
| `Policy.AdminMaySetAnything` | scanning_service.py:29-36 | Any status any role may set, the admin may set. The admin may set exactly the nine statuses. |
| `Policy.OneGrantorPerStatus` | scanning_service.py:29-36 | Leaving out the admin, no status is granted to two different roles, and no role but the admin may set "Manufactured". |
| `Policy.EveryStatusHasAGrantor` | scanning_service.py:29-36 | Every status except "Manufactured" can be set by some non-admin role. |
| `Records.GetEmployeeRole` | scanning_service.py:38-46 | The role column is returned exactly when the employee row exists. |
| `Records.Latest` | scanning_service.py:80-84 | There is no result exactly when the uid has no audit row. Otherwise the result is a row for that uid with the greatest `updated_at`, and no later-appended row for the uid ties with it. |
| `Records.LatestUnique` | scanning_service.py:80-84 | At most one row satisfies the latest-row condition, so the selection is a well-defined choice. |
| `Records.LatestAfterAppend` | scanning_service.py:80-84 | Appending a row leaves every other uid's latest row unchanged. The new row becomes its own uid's latest when no earlier row for that uid is timestamped after it. |
| `Records.SetCurrent` | scanning_service.py:165 | The `UPDATE` changes only the `current_status` of the item with that uid. If no such item exists it changes nothing. It never adds or removes items. |
| `Lookup.Expiry` | scanning_service.py:75-77 | An expiry exists exactly when the manufacture date is present and the warranty is present and non-zero. |
| `Lookup.ExpiryRoundTrip` | scanning_service.py:75-77 | The expiry lies a whole number of 365-day years after manufacture, and that number is the warranty. |
| `Lookup.ExpiryMonotone` | scanning_service.py:75-77 | A longer warranty never gives an earlier expiry. A positive warranty expires after the manufacture day. |
| `Lookup.Scan` | scanning_service.py:58-97 | A missing uid gives "uid required". An unknown uid gives "Item not found". Otherwise the response has the item's details and its expiry. `current_status` is the status of the latest audit row, or the item's projection when it has no row. `last_updated` is absent exactly when no audit row exists. |
| `Lookup.AllowedStatuses` | scanning_service.py:110-120 | A missing id gives "employee_id required". An unknown employee or empty role gives "Invalid employee_id". Otherwise the response has the employee's role and exactly the policy's list for it. |
| `Engine.Check` | scanning_service.py:131-150 | A write proceeds exactly when all three fields are given, the employee exists, and the policy lets the employee's role set the status. Otherwise the first failing check decides the response: missing fields, then invalid employee, then not allowed with the role's full list. |
| `Engine.Store.UpdateStatus` | scanning_service.py:123-175 | A rejection or storage failure leaves the log and the items unchanged, whichever statement failed. On success the response is `ok`, exactly one audit row `(uid, status, "MobileApp", note, now, employee)` is appended after the earlier rows, and the item's current status is set. Employees never change. |
| `Properties.WritePreservesConsistency` | scanning_service.py:159-168 | If every item's projection shows its latest audited status before an accepted write, this still holds after it, provided every earlier row for that uid is timestamped strictly before `now`. |
| `Properties.ScanAfterWrite` | scanning_service.py:159-168 | Right after an accepted write timestamped strictly after every earlier row for that uid, a scan of that uid reports the new status and `now`, with the item's other details unchanged. |
| `Properties.ScanElsewhereUnchanged` | scanning_service.py:159-165 | A write to one uid changes nothing a scan reports for any other uid. |
| `Properties.StaleClockSplitsProjectionFromLog` | scanning_service.py:156-165 | When `now` is earlier than an existing row, the projection shows the new status but a scan still reports the older row's status. So the consistency above needs a condition on the timestamps. |
| `Properties.QueryAgreesWithEngine` | scanning_service.py:140-150 | `/allowed_statuses` and `/update_status` reject the same employees. The listed statuses are exactly those the engine accepts from that employee, and a refusal carries the same list. |
| `Scenarios.InspectorInspects` | scanning_service.py:123-168 | The inspector's "Inspected" request is accepted, and a later scan reports "Inspected". |
| `Scenarios.ReceiverMayNotInstall` | scanning_service.py:144-150 | The receiver's "Installed" request is refused with allowed statuses `["Received"]`. |
| `Scenarios.ScanUnknownItem` | scanning_service.py:69-72 | Scanning a UID with no item row gives "Item not found". |
| `Scenarios.TwoTransitions` | scanning_service.py:80-96 | Two accepted transitions leave two audit rows, and a scan reports the later one. |
| `Scenarios.FailedWriteLeavesNoTrace` | scanning_service.py:167-172 | A failed commit leaves no audit row, and a scan falls back to the projection's "Manufactured". |

## Left out

- HTTP routing, JSON parsing and response rendering are not modelled. This covers `jsonify`, status codes as transport, error message text, `str()` of dates and the `strftime` timestamp format. Responses are datatypes, and dates and timestamps stay integers.
- Request fields with the wrong JSON type are not modelled (for example a numeric `uid`, or a string `employee_id` that MySQL would coerce). A `note` sent as JSON null is treated like an absent note and stored as `""` instead of NULL.
- MySQL connection handling (`get_db_conn`, cursors, `close`) is not modelled. It is replaced by the in-memory `Store`.
- Exceptions the code does not catch are not modelled. These are a failing connection or query in `scan_qr` (scanning_service.py:64-84), a failure in `get_employee_role` (scanning_service.py:40-43, called outside any `try` at lines 116 and 140), a failing `get_db_conn` at line 153, and a date overflow at line 77. Each becomes an unhandled server error. `Scan` and `AllowedStatuses` have no error outcome for them.
- Records.Latest: when two rows for a uid share the greatest timestamp (two writes in the same second), the source may report either of them. The model always reports the one appended last.
- The content of the exception message in the storage-error response is not modelled.
- String comparison is exact. The case-insensitive collation MySQL may apply to `uid` and `role` is not modelled.
- Transaction isolation between concurrent writers is not modelled. Requests run one at a time, and rollback means the state before the call is restored.
- Python `date` values are bounded (years 1 to 9999). The model's day numbers are unbounded, so the `OverflowError` an out-of-range expiry would raise is not modelled.
- init_employees_db.py (schema creation, sample seeding, column feature detection) and start_all_services.py (process supervision) are not part of this model. Only the sample employees are reused in `scenarios.dfy`.
