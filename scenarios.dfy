/**
 * Request sequences against a store seeded with the five sample employees
 * (ids 1 to 5: receiver, inspector, installer, maintenance, admin) and one
 * freshly manufactured item. Each method states what the service answers.
 */
module Scenarios {
  import opened Wrappers
  import opened Records
  import opened Lookup
  import opened Engine
  import Policy

  const SampleEmployees: map<int, string> := map[
    1 := Policy.Receiver, 2 := Policy.Inspector, 3 := Policy.Installer,
    4 := Policy.Maintenance, 5 := Policy.Admin]

  const Uid := "UID-0001"

  const NewItem := Item(Some("Rail Clip"), Some("V-01"), Some("L-7"), Some("S-1"), Some(738000), Some(2), Some(Policy.Manufactured))

  /** The inspector (id 2) marks the item "Inspected"; a scan then reports it. */
  method InspectorInspects() returns (resp: UpdateResponse, scan: ScanResponse)
    ensures resp == Updated(Uid, Policy.Inspected, Policy.Inspector)
    ensures scan.Found? && scan.view.currentStatus == Some(Policy.Inspected) && scan.view.lastUpdated == Some(100)
  {
    var store := new Store(SampleEmployees, map[Uid := NewItem], []);
    resp := store.UpdateStatus(UpdateRequest(Some(Uid), Some(Policy.Inspected), Some(2), Some("ok")), 100, NoFailure);
    LatestAfterAppend([], store.statuses[0], Uid);
    scan := Scan(store.items, store.statuses, Some(Uid));
  }

  /** The receiver (id 1) may not mark the item "Installed"; the refusal lists what it may set. */
  method ReceiverMayNotInstall() returns (resp: UpdateResponse)
    ensures resp == NotAllowed(Policy.Receiver, Policy.Installed, [Policy.Received])
  {
    var store := new Store(SampleEmployees, map[Uid := NewItem], []);
    resp := store.UpdateStatus(UpdateRequest(Some(Uid), Some(Policy.Installed), Some(1), None), 100, NoFailure);
  }

  /** Scanning a uid with no item row reports that the item was not found. */
  method ScanUnknownItem() returns (scan: ScanResponse)
    ensures scan == ItemNotFound
  {
    var store := new Store(SampleEmployees, map[Uid := NewItem], []);
    scan := Scan(store.items, store.statuses, Some("UID-9999"));
  }

  /**
   * Two accepted transitions on the same item leave two audit rows, and a
   * scan reports only the later one.
   */
  method TwoTransitions() returns (scan: ScanResponse, rows: nat)
    ensures rows == 2
    ensures scan.Found? && scan.view.currentStatus == Some(Policy.Installed) && scan.view.lastUpdated == Some(200)
  {
    var store := new Store(SampleEmployees, map[Uid := NewItem], []);
    var r1 := store.UpdateStatus(UpdateRequest(Some(Uid), Some(Policy.Inspected), Some(2), None), 100, NoFailure);
    ghost var first := store.statuses;
    var r2 := store.UpdateStatus(UpdateRequest(Some(Uid), Some(Policy.Installed), Some(3), None), 200, NoFailure);
    LatestAfterAppend(first, store.statuses[1], Uid);
    rows := |store.statuses|;
    scan := Scan(store.items, store.statuses, Some(Uid));
  }

  /** A storage failure leaves no audit row behind, and a scan still reports the projection. */
  method FailedWriteLeavesNoTrace() returns (resp: UpdateResponse, scan: ScanResponse, rows: nat)
    ensures resp == StorageError && rows == 0
    ensures scan.Found? && scan.view.currentStatus == Some(Policy.Manufactured) && scan.view.lastUpdated == None
  {
    var store := new Store(SampleEmployees, map[Uid := NewItem], []);
    resp := store.UpdateStatus(UpdateRequest(Some(Uid), Some(Policy.Received), Some(1), None), 100, CommitFails);
    rows := |store.statuses|;
    scan := Scan(store.items, store.statuses, Some(Uid));
  }
}
