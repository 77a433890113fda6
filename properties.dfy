/**
 * Properties that relate the operations to each other: the projection kept
 * by `/update_status` against the audit log read by `/scan`, and the
 * `/allowed_statuses` answer against the engine's permission check.
 */
module Properties {
  import opened Wrappers
  import opened Records
  import opened Lookup
  import opened Engine
  import Policy

  /**
   * The items projection agrees with the audit log: every item that has an
   * audit row shows the status of its latest one.
   */
  ghost predicate Consistent(items: map<string, Item>, statuses: seq<StatusRow>) {
    forall u, k :: u in items && IsLatest(statuses, u, k) ==> items[u].currentStatus == Some(statuses[k].status)
  }

  /**
   * An accepted write keeps the projection consistent with the log, provided
   * every earlier row for that uid is timestamped strictly before the write.
   * Then the new row is the only row of its uid with the greatest timestamp,
   * so the result does not depend on how `ORDER BY updated_at DESC` breaks ties.
   */
  lemma {:induction false} WritePreservesConsistency(items: map<string, Item>, statuses: seq<StatusRow>, row: StatusRow)
    requires Consistent(items, statuses)
    requires Before(statuses, row.uid, row.updatedAt)
    ensures Consistent(SetCurrent(items, row.uid, row.status), statuses + [row])
  {
    var items', log' := SetCurrent(items, row.uid, row.status), statuses + [row];
    forall u, k | u in items' && IsLatest(log', u, k)
      ensures items'[u].currentStatus == Some(log'[k].status)
    {
      LatestAfterAppend(statuses, row, u);
      LatestUnique(log', u, k, Latest(log', u).value);
      if u != row.uid {
        assert IsLatest(statuses, u, k);
      }
    }
  }

  /**
   * Right after an accepted write timestamped strictly after every earlier
   * row for that uid, `/scan` of that uid reports the new status and the
   * write's timestamp, with the item's other details as they were. The new
   * row is then the only row with the greatest timestamp, whatever the tie rule.
   */
  lemma ScanAfterWrite(items: map<string, Item>, statuses: seq<StatusRow>, row: StatusRow)
    requires row.uid in items && row.uid != ""
    requires Before(statuses, row.uid, row.updatedAt)
    ensures var r := Scan(SetCurrent(items, row.uid, row.status), statuses + [row], Some(row.uid));
      r.Found? && r.view.currentStatus == Some(row.status) && r.view.lastUpdated == Some(row.updatedAt)
      && Describes(r.view, row.uid, items[row.uid])
  {
  }

  /** A write to one uid changes nothing that `/scan` reports for any other uid. */
  lemma ScanElsewhereUnchanged(items: map<string, Item>, statuses: seq<StatusRow>, row: StatusRow, uid: Option<string>)
    requires uid != Some(row.uid)
    ensures Scan(SetCurrent(items, row.uid, row.status), statuses + [row], uid) == Scan(items, statuses, uid)
  {
  }

  /**
   * With a clock that went backwards the projection and the log disagree:
   * an item audited "Inspected" at time 10 and then set to "Installed" at
   * time 5 shows "Installed" in its projection while `/scan` reports
   * "Inspected".
   */
  lemma StaleClockSplitsProjectionFromLog()
    ensures var item := Item(None, None, None, None, None, None, Some(Policy.Inspected));
      var items := map["UID-0001" := item];
      var log := [StatusRow("UID-0001", Policy.Inspected, Location, "", 10, Some(2))];
      var row := StatusRow("UID-0001", Policy.Installed, Location, "", 5, Some(3));
      Consistent(items, log)
      && SetCurrent(items, "UID-0001", Policy.Installed)["UID-0001"].currentStatus == Some(Policy.Installed)
      && Scan(SetCurrent(items, "UID-0001", Policy.Installed), log + [row], Some("UID-0001")).view.currentStatus
         == Some(Policy.Inspected)
  {
    var item := Item(None, None, None, None, None, None, Some(Policy.Inspected));
    var items := map["UID-0001" := item];
    var log := [StatusRow("UID-0001", Policy.Inspected, Location, "", 10, Some(2))];
    var row := StatusRow("UID-0001", Policy.Installed, Location, "", 5, Some(3));
    forall u, k | u in items && IsLatest(log, u, k) ensures items[u].currentStatus == Some(log[k].status) {
    }
    assert IsLatest(log + [row], "UID-0001", 0);
    LatestUnique(log + [row], "UID-0001", 0, Latest(log + [row], "UID-0001").value);
  }

  /**
   * `/allowed_statuses` tells an employee exactly what `/update_status` will
   * accept from them: the listed statuses are the ones that pass the checks,
   * a refusal carries the same list, and both reject the same employees.
   */
  lemma QueryAgreesWithEngine(employees: map<int, string>, uid: string, status: string, id: int, note: Option<string>)
    requires uid != "" && status != "" && id != 0
    ensures var q := AllowedStatuses(employees, Some(id));
      var v := Check(employees, UpdateRequest(Some(uid), Some(status), Some(id), note));
      (q == InvalidEmployeeId <==> v == Reject(InvalidEmployee))
      && (q.Listed? ==> (v.Proceed? <==> status in q.allowed))
      && (v.Reject? && v.response.NotAllowed? ==> q.Listed? && v.response.allowedStatuses == q.allowed)
  {
  }
}
