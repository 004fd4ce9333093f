/** The admin console (frontend/src/app/admin/page.tsx): loading the users and employees,
    the manager list, the employees tab, the admin count and the manager assignment. The
    manager selection holds the chosen manager's user id, or None for ''; the API calls
    are parameters. */
module AdminPage {
  import opened Common
  import opened Ui

  const ASSIGN_FAILED: string := "Failed to assign manager: "

  datatype User = User(id: int, email: string, role: string)

  /** An employee row; `userRole` is `employee.user?.role`. */
  datatype Employee = Employee(id: int, userRole: Option<string>, managerId: Option<int>)

  datatype State = State(
    employees: seq<Employee>, users: seq<User>, managers: seq<User>, error: Option<string>,
    selectedEmployee: Option<Employee>, selectedManager: Option<int>, assignOpen: bool)

  function HasRole(role: string): User -> bool {
    (u: User) => u.role == role
  }

  /** The managers offered in the dialog (lines 47-51): exactly the users with role
      MANAGER, in order. */
  function Managers(users: seq<User>): (r: seq<User>)
    ensures SubseqOf(r, users)
    ensures forall u :: u in r <==> u in users && u.role == MANAGER
  {
    FilterIsSubseq(users, HasRole(MANAGER));
    Filter(users, HasRole(MANAGER))
  }

  /** `fetchData` (lines 31-58): each of the two lists falls back to [] on its own when its
      call fails; the managers are derived from the users. */
  function FetchData(st: State, employees: Reply<seq<Employee>>, users: Reply<seq<User>>): (r: State)
    ensures r.employees == (if employees.Replied? then employees.value else [])
    ensures r.users == (if users.Replied? then users.value else [])
    ensures r.managers == Managers(r.users) && r.error.None?
    ensures r.selectedEmployee == st.selectedEmployee && r.selectedManager == st.selectedManager
    ensures r.assignOpen == st.assignOpen
  {
    var e := if employees.Replied? then employees.value else [];
    var u := if users.Replied? then users.value else [];
    st.(employees := e, users := u, managers := Managers(u), error := None)
  }

  /** A failing employee call leaves the user list and the managers as a successful one
      would. */
  lemma FailuresAreIndependent(st: State, e1: Reply<seq<Employee>>, e2: Reply<seq<Employee>>, users: Reply<seq<User>>)
    ensures FetchData(st, e1, users).users == FetchData(st, e2, users).users
    ensures FetchData(st, e1, users).managers == FetchData(st, e2, users).managers
  {
  }

  function IsEmployeeUser(e: Employee): bool {
    e.userRole == Some(EMPLOYEE)
  }

  /** The employees tab (lines 222-227): only employees whose user has role EMPLOYEE. */
  function EmployeesTab(employees: seq<Employee>): (r: seq<Employee>)
    ensures SubseqOf(r, employees)
    ensures forall e :: e in r <==> e in employees && e.userRole == Some(EMPLOYEE)
  {
    FilterIsSubseq(employees, IsEmployeeUser);
    Filter(employees, IsEmployeeUser)
  }

  /** The Admins card (line 141). */
  function AdminCount(users: seq<User>): (r: nat)
    ensures r <= |users|
    ensures r == |Filter(users, HasRole(ADMIN))|
    ensures r == 0 <==> forall i :: 0 <= i < |users| ==> users[i].role != ADMIN
  {
    if forall i :: 0 <= i < |users| ==> users[i].role != ADMIN then
      FilterDropsAll(users, HasRole(ADMIN));
      |Filter(users, HasRole(ADMIN))|
    else
      var k :| 0 <= k < |users| && users[k].role == ADMIN;
      assert users[k] in Filter(users, HasRole(ADMIN));
      |Filter(users, HasRole(ADMIN))|
  }

  /** Managers and admins are different users, so together they never outnumber the
      users. */
  lemma ManagersAndAdminsApart(users: seq<User>)
    ensures |Managers(users)| + AdminCount(users) <= |users|
  {
    ExclusiveCounts(users, HasRole(MANAGER), HasRole(ADMIN), HasRole(""));
  }

  /** `openAssignDialog` (lines 82-86): the employee's current manager is preselected, or
      nothing when it has none. */
  function OpenAssignDialog(st: State, e: Employee): (r: State)
    ensures r.selectedEmployee == Some(e) && r.selectedManager == e.managerId && r.assignOpen
    ensures r.employees == st.employees && r.users == st.users && r.managers == st.managers
  {
    st.(selectedEmployee := Some(e), selectedManager := e.managerId, assignOpen := true)
  }

  /** `handleAssignManager` (lines 60-80): nothing without both selections. Otherwise
      (employee id, manager id) is sent; on success the lists are fetched again and the
      dialog closes with both selections cleared; on failure the state stays and an alert
      carries the message. */
  function HandleAssignManager(st: State, result: CallResult, employees: Reply<seq<Employee>>, users: Reply<seq<User>>)
    : (r: (State, Option<(int, int)>, Option<string>))
    ensures st.selectedEmployee.None? || st.selectedManager.None? ==> r == (st, None, None)
    ensures st.selectedEmployee.Some? && st.selectedManager.Some? ==>
              r.1 == Some((st.selectedEmployee.value.id, st.selectedManager.value))
    ensures st.selectedEmployee.Some? && st.selectedManager.Some? && result.Succeeded? ==>
              && r.0 == FetchData(st, employees, users).(assignOpen := false, selectedEmployee := None, selectedManager := None)
              && r.2.None?
    ensures st.selectedEmployee.Some? && st.selectedManager.Some? && result.CallFailed? ==>
              r.0 == st && r.2 == Some(ASSIGN_FAILED + result.message)
  {
    match (st.selectedEmployee, st.selectedManager)
    case (Some(e), Some(m)) =>
      var sent := Some((e.id, m));
      (match result
       case Succeeded =>
         (FetchData(st, employees, users).(assignOpen := false, selectedEmployee := None, selectedManager := None), sent, None)
       case CallFailed(message) => (st, sent, Some(ASSIGN_FAILED + message)))
    case _ => (st, None, None)
  }
}
