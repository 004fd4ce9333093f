/** Administration (Backend/src/controllers/adminController.js): changing a user's role,
    assigning a manager or an HR contact to an employee, and the system statistics. */
module Admin {
  import opened Common
  import opened Store

  // ---------------------------------------------------------------------------
  // changeUserRole

  /** The status of `changeUserRole` (lines 38-64): 400 for a role outside the four
      known ones, 404 (Prisma P2025) for an unknown user, else None. */
  function RoleChangeCheck(users: seq<User>, userId: int, role: Option<string>): (r: Option<int>)
    ensures role.None? || !KnownRole(role.value) ==> r == Some(400)
    ensures r.None? <==> role.Some? && KnownRole(role.value) && IndexOfUser(users, userId).Some?
    ensures r == Some(404) <==> role.Some? && KnownRole(role.value) && IndexOfUser(users, userId).None?
  {
    if role.None? || !KnownRole(role.value) then Some(400)
    else if IndexOfUser(users, userId).None? then Some(404)
    else None
  }

  /** `changeUserRole`: only the role of the addressed user changes. */
  method ChangeUserRole(userId: int, role: Option<string>, table: UserTable) returns (code: int)
    requires table.Valid()
    modifies table
    ensures table.Valid() && table.nextId == old(table.nextId)
    ensures var check := RoleChangeCheck(old(table.rows), userId, role);
      && (check.Some? ==> code == check.value && table.rows == old(table.rows))
      && (check.None? ==>
            var k := IndexOfUser(old(table.rows), userId).value;
            code == 200 && table.rows == old(table.rows)[k := old(table.rows)[k].(role := role.value)])
  {
    var check := RoleChangeCheck(table.rows, userId, role);
    if check.Some? {
      return check.value;
    }
    var k := IndexOfUser(table.rows, userId).value;
    var before := table.rows;
    table.rows := table.rows[k := table.rows[k].(role := role.value)];
    assert forall i :: 0 <= i < |table.rows| ==> (table.rows[i].id == before[i].id && table.rows[i].email == before[i].email);
    code := 200;
  }

  /** After a role change every stored role that was known stays known. */
  lemma RoleChangeKeepsRolesKnown(users: seq<User>, userId: int, role: Option<string>)
    requires forall i :: 0 <= i < |users| ==> KnownRole(users[i].role)
    requires RoleChangeCheck(users, userId, role).None?
    ensures var k := IndexOfUser(users, userId).value;
      var after := users[k := users[k].(role := role.value)];
      forall i :: 0 <= i < |after| ==> KnownRole(after[i].role)
  {
  }

  // ---------------------------------------------------------------------------
  // assignManager and assignHR

  /** The error statuses shared by both assignments (lines 75-91 and 122-138): 400 for a
      missing or zero id, 404 for an unknown user, 400 for a user whose role is not
      admitted, 404 (P2025) for an unknown employee. */
  function AssignCheck(users: seq<User>, employees: seq<Employee>, employeeId: int, chosen: Option<int>,
                       admitted: string -> bool): (r: Option<int>)
    ensures !Truthy(chosen) ==> r == Some(400)
    ensures Truthy(chosen) && FindUser(users, chosen.value).None? ==> r == Some(404)
    ensures r.None? <==>
              Truthy(chosen) && FindUser(users, chosen.value).Some? && admitted(FindUser(users, chosen.value).value.role)
              && IndexOfEmployee(employees, employeeId).Some?
    ensures Truthy(chosen) && FindUser(users, chosen.value).Some? && !admitted(FindUser(users, chosen.value).value.role) ==>
              r == Some(400)
    ensures (Truthy(chosen) && FindUser(users, chosen.value).Some? && admitted(FindUser(users, chosen.value).value.role)
             && IndexOfEmployee(employees, employeeId).None?) ==> r == Some(404)
  {
    if !Truthy(chosen) then Some(400)
    else
      match FindUser(users, chosen.value)
      case None => Some(404)
      case Some(u) =>
        if !admitted(u.role) then Some(400)
        else if IndexOfEmployee(employees, employeeId).None? then Some(404)
        else None
  }

  /** Roles admitted as a manager (line 89). */
  function ManagerRole(role: string): bool {
    role == MANAGER || role == HR || role == ADMIN
  }

  /** Roles admitted as an HR contact (line 136). */
  function HrRole(role: string): bool {
    role == HR || role == ADMIN
  }

  /** Every role admitted as HR contact is also admitted as manager. */
  lemma HrRolesAreManagerRoles(role: string)
    ensures HrRole(role) ==> ManagerRole(role)
  {
  }

  /** Changing a field other than `id` and `userId` keeps the employee table valid. */
  lemma FieldUpdateKeepsValid(rows: seq<Employee>, nextId: int, k: nat, e: Employee)
    requires k < |rows| && e.id == rows[k].id && e.userId == rows[k].userId
    requires (forall i :: 0 <= i < |rows| ==> rows[i].id < nextId)
             && (forall i, j :: 0 <= i < j < |rows| ==> rows[i].id != rows[j].id && rows[i].userId != rows[j].userId)
    ensures var after := rows[k := e];
      (forall i :: 0 <= i < |after| ==> after[i].id < nextId)
      && (forall i, j :: 0 <= i < j < |after| ==> after[i].id != after[j].id && after[i].userId != after[j].userId)
  {
    var after := rows[k := e];
    assert forall i :: 0 <= i < |after| ==> (after[i].id == rows[i].id && after[i].userId == rows[i].userId);
  }

  /** `assignManager`: only `managerId` of the addressed employee changes, to the chosen
      user's id. */
  method AssignManager(employeeId: int, managerId: Option<int>, users: seq<User>, table: EmployeeTable) returns (code: int)
    requires table.Valid()
    modifies table
    ensures table.Valid() && table.nextId == old(table.nextId)
    ensures var check := AssignCheck(users, old(table.rows), employeeId, managerId, ManagerRole);
      && (check.Some? ==> code == check.value && table.rows == old(table.rows))
      && (check.None? ==>
            var k := IndexOfEmployee(old(table.rows), employeeId).value;
            code == 200 && table.rows == old(table.rows)[k := old(table.rows)[k].(managerId := managerId)])
  {
    var check := AssignCheck(users, table.rows, employeeId, managerId, ManagerRole);
    if check.Some? {
      return check.value;
    }
    var k := IndexOfEmployee(table.rows, employeeId).value;
    FieldUpdateKeepsValid(table.rows, table.nextId, k, table.rows[k].(managerId := managerId));
    table.rows := table.rows[k := table.rows[k].(managerId := managerId)];
    code := 200;
  }

  /** `assignHR`: only `hrId` of the addressed employee changes, to the chosen user's id. */
  method AssignHR(employeeId: int, hrId: Option<int>, users: seq<User>, table: EmployeeTable) returns (code: int)
    requires table.Valid()
    modifies table
    ensures table.Valid() && table.nextId == old(table.nextId)
    ensures var check := AssignCheck(users, old(table.rows), employeeId, hrId, HrRole);
      && (check.Some? ==> code == check.value && table.rows == old(table.rows))
      && (check.None? ==>
            var k := IndexOfEmployee(old(table.rows), employeeId).value;
            code == 200 && table.rows == old(table.rows)[k := old(table.rows)[k].(hrId := hrId)])
  {
    var check := AssignCheck(users, table.rows, employeeId, hrId, HrRole);
    if check.Some? {
      return check.value;
    }
    var k := IndexOfEmployee(table.rows, employeeId).value;
    FieldUpdateKeepsValid(table.rows, table.nextId, k, table.rows[k].(hrId := hrId));
    table.rows := table.rows[k := table.rows[k].(hrId := hrId)];
    code := 200;
  }

  /** A user refused as manager is refused as HR contact too. */
  lemma RefusedManagerIsRefusedHr(users: seq<User>, employees: seq<Employee>, employeeId: int, chosen: Option<int>)
    requires AssignCheck(users, employees, employeeId, chosen, ManagerRole).Some?
    ensures AssignCheck(users, employees, employeeId, chosen, HrRole).Some?
  {
  }

  /** After a successful manager assignment the employee's manager is a user whose role
      is MANAGER, HR or ADMIN. */
  lemma AssignedManagerHasManagerRole(users: seq<User>, employees: seq<Employee>, employeeId: int, managerId: Option<int>)
    requires AssignCheck(users, employees, employeeId, managerId, ManagerRole).None?
    ensures exists u :: u in users && u.id == managerId.value && ManagerRole(u.role)
  {
    var u := FindUser(users, managerId.value).value;
    assert u in users && u.id == managerId.value && ManagerRole(u.role);
  }

  // ---------------------------------------------------------------------------
  // getSystemStats

  datatype Stats = Stats(totalUsers: nat, totalEmployees: nat, totalSkills: nat, totalRatings: nat, pendingApprovals: nat)

  function IsManagerPending(x: EmployeeSkill): bool {
    x.managerStatus == Pending
  }

  function IsManagerApproved(x: EmployeeSkill): bool {
    x.managerStatus == Approved
  }

  function IsManagerRejected(x: EmployeeSkill): bool {
    x.managerStatus == Rejected
  }

  /** The counts of lines 175-179. */
  function SystemStats(users: seq<User>, employees: seq<Employee>, skills: seq<Skill>, ratings: seq<EmployeeSkill>): (r: Stats)
    ensures r.totalUsers == |users| && r.totalEmployees == |employees| && r.totalSkills == |skills|
    ensures r.totalRatings == |ratings|
    ensures r.pendingApprovals == |Filter(ratings, IsManagerPending)|
  {
    Stats(|users|, |employees|, |skills|, |ratings|, |Filter(ratings, IsManagerPending)|)
  }

  /** The pending count is the number of records not yet decided: together with the
      approved and rejected records it makes up every rating record. */
  lemma PendingIsTheUndecidedRest(users: seq<User>, employees: seq<Employee>, skills: seq<Skill>, ratings: seq<EmployeeSkill>)
    ensures SystemStats(users, employees, skills, ratings).pendingApprovals
            + |Filter(ratings, IsManagerApproved)| + |Filter(ratings, IsManagerRejected)|
            == SystemStats(users, employees, skills, ratings).totalRatings
  {
    ExclusiveCounts(ratings, IsManagerPending, IsManagerApproved, IsManagerRejected);
  }
}
