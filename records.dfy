/**
 * The stored records and the repository queries over them: the `items`
 * projection, the append-only `statuses` audit log, and the employees' roles.
 * Dates are day numbers and timestamps are integers.
 */
module Records {
  import opened Wrappers

  /** A row of the `items` table; every column may be NULL. */
  datatype Item = Item(
    componentType: Option<string>,
    vendorId: Option<string>,
    lotNo: Option<string>,
    serialNo: Option<string>,
    mfgDate: Option<int>,
    warrantyYears: Option<int>,
    currentStatus: Option<string>)

  /** A row of the `statuses` audit log. */
  datatype StatusRow = StatusRow(
    uid: string,
    status: string,
    location: string,
    note: string,
    updatedAt: int,
    employeeId: Option<int>)

  /** Python truthiness of a text request field: absent, null and "" are all missing. */
  predicate Given(field: Option<string>) {
    field.Some? && field.value != ""
  }

  /** Python truthiness of a numeric request field: absent, null and 0 are all missing. */
  predicate GivenId(field: Option<int>) {
    field.Some? && field.value != 0
  }

  /** The role column of the employee row with id `id`, if there is such a row. */
  function GetEmployeeRole(employees: map<int, string>, id: int): (r: Option<string>)
    ensures r.Some? <==> id in employees
    ensures r.Some? ==> r.value == employees[id]
  {
    if id in employees then Some(employees[id]) else None
  }

  /** Does employee `id` have a row with a non-empty role? */
  predicate HasRole(employees: map<int, string>, id: int) {
    id in employees && employees[id] != ""
  }

  /** Does the log hold any row for `uid`? */
  predicate HasRowFor(log: seq<StatusRow>, uid: string) {
    exists i :: 0 <= i < |log| && log[i].uid == uid
  }

  /**
   * Row `k` is the one `ORDER BY updated_at DESC LIMIT 1` picks for `uid`:
   * it has the greatest timestamp among the rows for `uid`, and among rows
   * sharing that timestamp it is the one appended last.
   */
  ghost predicate IsLatest(log: seq<StatusRow>, uid: string, k: int) {
    0 <= k < |log| && log[k].uid == uid
    && (forall i :: 0 <= i < |log| && log[i].uid == uid ==> log[i].updatedAt <= log[k].updatedAt)
    && (forall i :: k < i < |log| && log[i].uid == uid ==> log[i].updatedAt < log[k].updatedAt)
  }

  /** At most one row is the latest. */
  lemma LatestUnique(log: seq<StatusRow>, uid: string, j: int, k: int)
    requires IsLatest(log, uid, j) && IsLatest(log, uid, k)
    ensures j == k
  {
  }

  /** The index of the latest row for `uid`, or None when the log has no row for it. */
  function Latest(log: seq<StatusRow>, uid: string): (r: Option<nat>)
    ensures r.None? <==> !HasRowFor(log, uid)
    ensures r.Some? ==> IsLatest(log, uid, r.value)
  {
    if |log| == 0 then None
    else
      var prev := Latest(log[..|log| - 1], uid);
      var last := log[|log| - 1];
      if last.uid != uid then
        prev
      else if prev.Some? && last.updatedAt < log[prev.value].updatedAt then
        prev
      else
        Some(|log| - 1)
  }

  /** Every row for `uid` in the log is timestamped strictly before `now`. */
  predicate Before(log: seq<StatusRow>, uid: string, now: int) {
    forall i :: 0 <= i < |log| && log[i].uid == uid ==> log[i].updatedAt < now
  }

  /** No row for `uid` in the log is timestamped after `now`. */
  predicate NotAfter(log: seq<StatusRow>, uid: string, now: int) {
    forall i :: 0 <= i < |log| && log[i].uid == uid ==> log[i].updatedAt <= now
  }

  /**
   * Appending a row leaves the latest row of every other uid where it was,
   * and makes the new row the latest of its own uid when no earlier row for
   * that uid is timestamped after it.
   */
  lemma LatestAfterAppend(log: seq<StatusRow>, row: StatusRow, uid: string)
    ensures row.uid != uid ==> Latest(log + [row], uid) == Latest(log, uid)
    ensures row.uid == uid && NotAfter(log, uid, row.updatedAt) ==> Latest(log + [row], uid) == Some(|log|)
  {
  }

  /**
   * `UPDATE items SET current_status = status WHERE uid = uid`: the item
   * with that uid, if any, gets the new status; nothing else changes, and no
   * item is created.
   */
  function SetCurrent(items: map<string, Item>, uid: string, status: string): (r: map<string, Item>)
    ensures r.Keys == items.Keys
    ensures forall u :: u in items && u != uid ==> r[u] == items[u]
    ensures uid in items ==> r[uid] == items[uid].(currentStatus := Some(status))
  {
    if uid in items then items[uid := items[uid].(currentStatus := Some(status))] else items
  }
}
