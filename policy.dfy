/**
 * The permission policy: a fixed table from an employee's role to the
 * statuses that role may assign to an item. A role the table does not list
 * is denied everything.
 */
module Policy {

  // Roles (the closed enumeration of the employees table).
  const Receiver := "receiver"
  const Inspector := "inspector"
  const Installer := "installer"
  const Maintenance := "maintenance"
  const Admin := "admin"

  // Statuses an item can be given.
  const Manufactured := "Manufactured"
  const Received := "Received"
  const Inspected := "Inspected"
  const Installed := "Installed"
  const Serviced := "Serviced"
  const ServiceNeeded := "Service Needed"
  const ReplacementNeeded := "Replacement Needed"
  const Replaced := "Replaced"
  const Discarded := "Discarded"

  const MaintenanceStatuses: seq<string> :=
    [Serviced, ServiceNeeded, ReplacementNeeded, Replaced, Discarded]

  /** Every status, in the order the admin entry lists them. */
  const AllStatuses: seq<string> :=
    [Manufactured, Received, Inspected, Installed] + MaintenanceStatuses

  /** The policy table itself. */
  const RoleAllowed: map<string, seq<string>> := map[
    Receiver := [Received],
    Inspector := [Inspected],
    Installer := [Installed],
    Maintenance := MaintenanceStatuses,
    Admin := AllStatuses
  ]

  /** The roles the table lists. */
  const Roles: set<string> := RoleAllowed.Keys

  predicate NoDuplicates(s: seq<string>) {
    forall i, j :: 0 <= i < j < |s| ==> s[i] != s[j]
  }

  /** The statuses `role` may assign: the table's entry, or nothing for an unlisted role. */
  function Allowed(role: string): (r: seq<string>)
    ensures role !in Roles ==> r == []
    ensures role in Roles ==> r != []
    ensures forall s :: s in r ==> s in AllStatuses
    ensures NoDuplicates(r)
  {
    if role in RoleAllowed then RoleAllowed[role] else []
  }

  /** May `role` assign `status`? */
  predicate MaySet(role: string, status: string) {
    status in Allowed(role)
  }

  /** The admin may assign every status that any role may assign, and every status there is. */
  lemma AdminMaySetAnything(role: string, status: string)
    ensures MaySet(role, status) ==> MaySet(Admin, status)
    ensures MaySet(Admin, status) <==> status in AllStatuses
  {
  }

  /**
   * Apart from the admin, each status is granted to at most one role, and
   * "Manufactured" to none: the roles split the lifecycle between them.
   */
  lemma OneGrantorPerStatus(r1: string, r2: string, status: string)
    requires r1 != Admin && r2 != Admin
    requires MaySet(r1, status) && MaySet(r2, status)
    ensures r1 == r2
    ensures status != Manufactured
  {
  }

  /** Every status but "Manufactured" can be assigned by some role other than the admin. */
  lemma EveryStatusHasAGrantor(status: string)
    requires status in AllStatuses && status != Manufactured
    ensures exists role :: role != Admin && MaySet(role, status)
  {
    if status == Received {
      assert MaySet(Receiver, status);
    } else if status == Inspected {
      assert MaySet(Inspector, status);
    } else if status == Installed {
      assert MaySet(Installer, status);
    } else {
      assert MaySet(Maintenance, status);
    }
  }
}
