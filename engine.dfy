/**
 * The transition engine behind `/update_status`: a validation cascade
 * (required fields, the employee's role, the policy) followed by one
 * transaction that appends an audit row and updates the item's current
 * status, committed together or rolled back together.
 */
module Engine {
  import opened Wrappers
  import opened Records
  import Policy

  /** Every audit row written by this service carries this location tag. */
  const Location := "MobileApp"

  datatype UpdateRequest = UpdateRequest(
    uid: Option<string>,
    newStatus: Option<string>,
    employeeId: Option<int>,
    note: Option<string>)

  datatype UpdateResponse =
    | FieldsRequired                                                // 400
    | InvalidEmployee                                               // 403: no row, or an empty role
    | NotAllowed(role: string, status: string, allowedStatuses: seq<string>)  // 403
    | Updated(uid: string, newStatus: string, role: string)         // 200, "ok": true
    | StorageError                                                  // 500: rolled back

  /** Where the transaction fails, if it does: the INSERT, the UPDATE, or the commit. */
  datatype Failure = NoFailure | InsertFails | UpdateFails | CommitFails

  /** The outcome of the checks that come before any write. */
  datatype Verdict =
    | Reject(response: UpdateResponse)
    | Proceed(uid: string, status: string, employeeId: int, role: string)

  predicate Complete(req: UpdateRequest) {
    Given(req.uid) && Given(req.newStatus) && GivenId(req.employeeId)
  }

  /** The note stored in the audit row: the request's note, "" when it sent none. */
  function NoteOf(req: UpdateRequest): string {
    req.note.GetOr("")
  }

  /**
   * The checks of `/update_status`, in order; the first that fails decides
   * the response. A write goes ahead exactly when every field is given, the
   * employee has a non-empty role, and the policy lets that role assign the
   * requested status.
   */
  function Check(employees: map<int, string>, req: UpdateRequest): (v: Verdict)
    ensures v.Proceed? <==>
      Complete(req) && req.employeeId.value in employees
      && Policy.MaySet(employees[req.employeeId.value], req.newStatus.value)
    ensures v.Proceed? ==>
      v == Proceed(req.uid.value, req.newStatus.value, req.employeeId.value, employees[req.employeeId.value])
    ensures !Complete(req) ==> v == Reject(FieldsRequired)
    ensures Complete(req) && !HasRole(employees, req.employeeId.value) ==> v == Reject(InvalidEmployee)
    ensures Complete(req) && HasRole(employees, req.employeeId.value) ==>
      var role := employees[req.employeeId.value];
      Policy.MaySet(role, req.newStatus.value) || v == Reject(NotAllowed(role, req.newStatus.value, Policy.Allowed(role)))
  {
    if !Complete(req) then
      Reject(FieldsRequired)
    else
      var role := GetEmployeeRole(employees, req.employeeId.value);
      if !Given(role) then
        Reject(InvalidEmployee)
      else if req.newStatus.value !in Policy.Allowed(role.value) then
        Reject(NotAllowed(role.value, req.newStatus.value, Policy.Allowed(role.value)))
      else
        Proceed(req.uid.value, req.newStatus.value, req.employeeId.value, role.value)
  }

  /** The database: employees' roles, the items projection and the audit log. */
  class Store {
    var employees: map<int, string>
    var items: map<string, Item>
    var statuses: seq<StatusRow>

    constructor (employees: map<int, string>, items: map<string, Item>, statuses: seq<StatusRow>)
      ensures this.employees == employees && this.items == items && this.statuses == statuses
    {
      this.employees := employees;
      this.items := items;
      this.statuses := statuses;
    }

    /**
     * `/update_status` at time `now`, with the storage layer failing as
     * `failure` says. On success exactly one audit row is appended and the
     * item's current status is set; on every other outcome the log and the
     * items are as they were before the call.
     */
    method UpdateStatus(req: UpdateRequest, now: int, failure: Failure) returns (resp: UpdateResponse)
      modifies this
      ensures employees == old(employees)
      ensures resp.Updated? <==> Check(employees, req).Proceed? && failure == NoFailure
      ensures Check(employees, req).Reject? ==> resp == Check(employees, req).response
      ensures Check(employees, req).Proceed? && failure != NoFailure ==> resp == StorageError
      ensures !resp.Updated? ==> statuses == old(statuses) && items == old(items)
      ensures resp.Updated? ==>
        var v := Check(employees, req);
        resp == Updated(v.uid, v.status, v.role)
        && statuses == old(statuses) + [StatusRow(v.uid, v.status, Location, NoteOf(req), now, Some(v.employeeId))]
        && items == SetCurrent(old(items), v.uid, v.status)
    {
      var verdict := Check(employees, req);
      if verdict.Reject? {
        return verdict.response;
      }
      // The transaction: both writes become visible together or not at all.
      var savedStatuses, savedItems := statuses, items;
      if failure == InsertFails {
        return StorageError;
      }
      statuses := statuses + [StatusRow(verdict.uid, verdict.status, Location, NoteOf(req), now, Some(verdict.employeeId))];
      if failure == UpdateFails {
        statuses, items := savedStatuses, savedItems;
        return StorageError;
      }
      items := SetCurrent(items, verdict.uid, verdict.status);
      if failure == CommitFails {
        statuses, items := savedStatuses, savedItems;
        return StorageError;
      }
      resp := Updated(verdict.uid, verdict.status, verdict.role);
    }
  }
}
