/**
 * The read path: the `/scan` lookup (item details, derived expiry date and
 * the latest audited status) and the `/allowed_statuses` query. Both are
 * functions of the stored state, so neither can change it.
 */
module Lookup {
  import opened Wrappers
  import opened Records
  import Policy

  /** A warranty year is counted as 365 days; there is no leap-year correction. */
  const DaysPerYear := 365

  /**
   * The expiry day: the manufacture day plus the warranty in days, computed
   * only when both are present and the warranty is non-zero (a zero warranty
   * is falsy, so it yields no expiry).
   */
  function Expiry(mfgDate: Option<int>, warrantyYears: Option<int>): (r: Option<int>)
    ensures r.Some? <==> mfgDate.Some? && warrantyYears.Some? && warrantyYears.value != 0
  {
    if mfgDate.Some? && warrantyYears.Some? && warrantyYears.value != 0 then
      Some(mfgDate.value + DaysPerYear * warrantyYears.value)
    else
      None
  }

  /** The expiry is a whole number of 365-day years after manufacture, and that number is the warranty. */
  lemma ExpiryRoundTrip(mfgDate: int, warrantyYears: int)
    requires warrantyYears != 0
    ensures Expiry(Some(mfgDate), Some(warrantyYears)).Some?
    ensures var e := Expiry(Some(mfgDate), Some(warrantyYears)).value;
      (e - mfgDate) % DaysPerYear == 0 && (e - mfgDate) / DaysPerYear == warrantyYears
  {
  }

  /** A longer warranty never gives an earlier expiry, and a positive warranty expires after manufacture. */
  lemma ExpiryMonotone(mfgDate: int, w1: int, w2: int)
    requires w1 != 0 && w2 != 0 && w1 <= w2
    ensures Expiry(Some(mfgDate), Some(w1)).value <= Expiry(Some(mfgDate), Some(w2)).value
    ensures w1 > 0 ==> Expiry(Some(mfgDate), Some(w1)).value > mfgDate
  {
  }

  /** The lookup's answer for a found item. */
  datatype ScanView = ScanView(
    uid: string,
    component: Option<string>,
    vendor: Option<string>,
    lotNo: Option<string>,
    serialNo: Option<string>,
    mfgDate: Option<int>,
    warrantyYears: Option<int>,
    expiryDate: Option<int>,
    currentStatus: Option<string>,
    lastUpdated: Option<int>)

  datatype ScanResponse =
    | UidRequired       // 400: no uid in the request
    | ItemNotFound      // 404: no item row with that uid
    | Found(view: ScanView)

  /** The view carries the item's own details and the expiry derived from them. */
  ghost predicate Describes(view: ScanView, uid: string, item: Item) {
    view.uid == uid
    && view.component == item.componentType && view.vendor == item.vendorId
    && view.lotNo == item.lotNo && view.serialNo == item.serialNo
    && view.mfgDate == item.mfgDate && view.warrantyYears == item.warrantyYears
    && view.expiryDate == Expiry(item.mfgDate, item.warrantyYears)
  }

  /**
   * `/scan`: look the item up by uid. Its current status is the status of
   * its latest audit row, or the item's own projection when it has no audit
   * row; `lastUpdated` is that row's timestamp, or None.
   */
  function Scan(items: map<string, Item>, statuses: seq<StatusRow>, uid: Option<string>): (r: ScanResponse)
    ensures r == UidRequired <==> !Given(uid)
    ensures r == ItemNotFound <==> Given(uid) && uid.value !in items
    ensures r.Found? ==> Given(uid) && uid.value in items && Describes(r.view, uid.value, items[uid.value])
    ensures r.Found? ==> (r.view.lastUpdated.None? <==> !HasRowFor(statuses, uid.value))
    ensures r.Found? && !HasRowFor(statuses, uid.value) ==>
      r.view.currentStatus == items[uid.value].currentStatus
    ensures r.Found? && HasRowFor(statuses, uid.value) ==>
      exists k :: IsLatest(statuses, uid.value, k)
        && r.view.currentStatus == Some(statuses[k].status)
        && r.view.lastUpdated == Some(statuses[k].updatedAt)
  {
    if !Given(uid) then UidRequired
    else if uid.value !in items then ItemNotFound
    else
      var item := items[uid.value];
      var latest := Latest(statuses, uid.value);
      Found(ScanView(
        uid.value,
        item.componentType, item.vendorId, item.lotNo, item.serialNo,
        item.mfgDate, item.warrantyYears,
        Expiry(item.mfgDate, item.warrantyYears),
        if latest.Some? then Some(statuses[latest.value].status) else item.currentStatus,
        if latest.Some? then Some(statuses[latest.value].updatedAt) else None))
  }

  datatype AllowedResponse =
    | EmployeeIdRequired   // 400: no employee id in the request
    | InvalidEmployeeId    // 404: no employee row, or an empty role
    | Listed(role: string, allowed: seq<string>)

  /** `/allowed_statuses`: the employee's role and the statuses the policy lets that role assign. */
  function AllowedStatuses(employees: map<int, string>, employeeId: Option<int>): (r: AllowedResponse)
    ensures r == EmployeeIdRequired <==> !GivenId(employeeId)
    ensures r == InvalidEmployeeId <==> GivenId(employeeId) && !HasRole(employees, employeeId.value)
    ensures r.Listed? ==>
      HasRole(employees, employeeId.value) && r.role == employees[employeeId.value]
      && r.allowed == Policy.Allowed(r.role)
  {
    if !GivenId(employeeId) then EmployeeIdRequired
    else
      var role := GetEmployeeRole(employees, employeeId.value);
      if !Given(role) then InvalidEmployeeId
      else Listed(role.value, Policy.Allowed(role.value))
  }
}
