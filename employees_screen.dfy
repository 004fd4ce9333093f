/** The employee management screen (frontend/src/components/EmployeesScreen.tsx): the
    search and department filter, the Active card, the add and edit forms and the
    per-row action menu. The add and edit callbacks belong to the parent; the model
    returns what they are called with. */
module EmployeesScreen {
  import opened Common

  datatype Employee = Employee(
    id: int, firstName: string, lastName: string, email: string, department: string, role: string,
    manager: string, contactInfo: string, status: string)

  datatype Form = Form(
    firstName: string, lastName: string, email: string, department: string, role: string,
    companyId: string, manager: string, contactInfo: string)

  const EMPTY_FORM: Form := Form("", "", "", "", "", "", "", "")

  datatype State = State(
    searchTerm: string, selectedDepartment: string, showAdd: bool, showEdit: bool,
    selected: Option<Employee>, actionMenu: Option<int>, form: Form)

  /** The text the search looks in: `${firstName} ${lastName} ${email}`. */
  function SearchText(e: Employee): string {
    e.firstName + " " + e.lastName + " " + e.email
  }

  function Matches(searchTerm: string, department: string): Employee -> bool {
    (e: Employee) => Contains(Lower(SearchText(e)), Lower(searchTerm)) && (department == "" || e.department == department)
  }

  /** `filteredEmployees` (lines 98-107). */
  function FilteredEmployees(employees: seq<Employee>, searchTerm: string, department: string): (r: seq<Employee>)
    ensures SubseqOf(r, employees)
    ensures forall e :: e in r <==>
              e in employees && Contains(Lower(SearchText(e)), Lower(searchTerm))
              && (department == "" || e.department == department)
  {
    FilterIsSubseq(employees, Matches(searchTerm, department));
    Filter(employees, Matches(searchTerm, department))
  }

  /** An empty search with no department shows everyone. */
  lemma EmptyFiltersShowAll(employees: seq<Employee>)
    ensures FilteredEmployees(employees, "", "") == employees
  {
    forall e | e in employees
      ensures Matches("", "")(e)
    {
      ContainsSelf(Lower(SearchText(e)));
    }
    FilterKeepsAll(employees, Matches("", ""));
  }

  /** Searching for an employee's email (in any letter case) finds the employee. */
  lemma SearchByEmailFinds(employees: seq<Employee>, e: Employee, department: string)
    requires e in employees && (department == "" || e.department == department)
    ensures e in FilteredEmployees(employees, e.email, department)
  {
    var prefix := e.firstName + " " + e.lastName + " ";
    assert SearchText(e) == prefix + e.email;
    LowerConcat(prefix, e.email);
    var s := Lower(SearchText(e));
    assert s[|prefix|..|prefix| + |e.email|] == Lower(e.email);
    ContainsAt(s, Lower(e.email), |prefix|);
  }

  function IsActive(e: Employee): bool {
    e.status == "active"
  }

  /** The Active card (lines 249-251). */
  function ActiveCount(employees: seq<Employee>): (r: nat)
    ensures r <= |employees|
    ensures r == |Filter(employees, IsActive)|
    ensures r == |employees| <==> forall i :: 0 <= i < |employees| ==> employees[i].status == "active"
  {
    FilterSplit(employees, IsActive);
    if forall i :: 0 <= i < |employees| ==> employees[i].status == "active" then
      FilterKeepsAll(employees, IsActive);
      |Filter(employees, IsActive)|
    else
      var k :| 0 <= k < |employees| && employees[k].status != "active";
      assert employees[k] in Filter(employees, Not(IsActive));
      |Filter(employees, IsActive)|
  }

  /** `handleAddEmployee` (lines 109-123): the parent gets the form, which is then reset
      to empty fields, and the modal closes. */
  function HandleAdd(st: State): (r: (State, Form))
    ensures r.1 == st.form
    ensures r.0 == st.(form := EMPTY_FORM, showAdd := false)
  {
    (st.(form := EMPTY_FORM, showAdd := false), st.form)
  }

  /** `openEditModal` (lines 134-147): the form is filled from the employee, with company
      '1'. */
  function OpenEditModal(st: State, e: Employee): (r: State)
    ensures r.selected == Some(e) && r.showEdit
    ensures r.form == Form(e.firstName, e.lastName, e.email, e.department, e.role, "1", e.manager, e.contactInfo)
    ensures r.searchTerm == st.searchTerm && r.actionMenu == st.actionMenu && r.showAdd == st.showAdd
  {
    st.(selected := Some(e), form := Form(e.firstName, e.lastName, e.email, e.department, e.role, "1", e.manager, e.contactInfo),
        showEdit := true)
  }

  /** `handleEditEmployee` (lines 125-132): only with a selected employee is the parent
      called, with its id and the form; the modal then closes and the selection is
      cleared. */
  function HandleEdit(st: State): (r: (State, Option<(int, Form)>))
    ensures st.selected.None? ==> r == (st, None)
    ensures st.selected.Some? ==>
              r == (st.(showEdit := false, selected := None), Some((st.selected.value.id, st.form)))
  {
    match st.selected
    case None => (st, None)
    case Some(e) => (st.(showEdit := false, selected := None), Some((e.id, st.form)))
  }

  /** Editing right after opening the modal sends the employee's own values back. */
  lemma EditAfterOpenSendsTheEmployee(st: State, e: Employee)
    ensures HandleEdit(OpenEditModal(st, e)).1
            == Some((e.id, Form(e.firstName, e.lastName, e.email, e.department, e.role, "1", e.manager, e.contactInfo)))
  {
  }

  /** The action-menu button (lines 362-369). */
  function ToggleActionMenu(open: Option<int>, id: int): (r: Option<int>)
    ensures r == Some(id) <==> open != Some(id)
    ensures r.None? <==> open == Some(id)
  {
    if open == Some(id) then None else Some(id)
  }

  /** Clicking the same row twice leaves its menu open if it was open before, and
      leaves no menu open otherwise. */
  lemma ToggleTwice(open: Option<int>, id: int)
    ensures ToggleActionMenu(ToggleActionMenu(open, id), id) == (if open == Some(id) then open else None)
  {
  }
}
