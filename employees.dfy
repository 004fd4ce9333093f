/** The employee records (Backend/src/controllers/employeeController.js): listing, reading,
    creating, updating and deleting employees, with the role-based ownership rules. The
    path id is taken as already parsed to a number. */
module Employees {
  import opened Common
  import opened Store

  // ---------------------------------------------------------------------------
  // Ownership

  /** `employee.adminId === req.user.userId`; a null `adminId` never equals the token's
      `userId`, whether that is a number or absent. */
  predicate AdministeredBy(e: Employee, user: Payload) {
    e.adminId.Some? && user.userId == e.adminId
  }

  /** The 403 condition shared by `getEmployee` (lines 35-40) and `updateEmployee` (lines
      96-101): an EMPLOYEE outside their own record, or an ADMIN outside their own
      employees. */
  predicate AccessDenied(e: Employee, user: Payload) {
    (user.role == EMPLOYEE && user.userId != Some(e.userId))
    || (user.role == ADMIN && !AdministeredBy(e, user))
  }

  /** Who may read or update a record: an EMPLOYEE only their own, an ADMIN only the
      employees they administer, any other role every record. */
  lemma AccessRule(e: Employee, user: Payload)
    ensures user.role == EMPLOYEE ==> (!AccessDenied(e, user) <==> user.userId == Some(e.userId))
    ensures user.role == ADMIN ==> (!AccessDenied(e, user) <==> e.adminId.Some? && user.userId == e.adminId)
    ensures user.role != EMPLOYEE && user.role != ADMIN ==> !AccessDenied(e, user)
  {
  }

  // ---------------------------------------------------------------------------
  // getEmployees and getEmployee

  function UnderAdmin(userId: Option<int>): Employee -> bool {
    (e: Employee) => userId.None? || e.adminId == userId
  }

  /** `getEmployees` (lines 7-13): 403 for every role but ADMIN; otherwise the employees
      whose `adminId` is the caller, in table order. Without `userId` in the token the
      filter `{ adminId: undefined }` is dropped and every employee is listed. */
  function ListEmployees(rows: seq<Employee>, user: Payload): (r: (int, seq<Employee>))
    ensures user.role != ADMIN ==> r == (403, [])
    ensures user.role == ADMIN ==> r.0 == 200 && SubseqOf(r.1, rows)
    ensures user.role == ADMIN && user.userId.Some? ==>
              forall e :: e in r.1 <==> e in rows && e.adminId == user.userId
    ensures user.role == ADMIN && user.userId.None? ==> r.1 == rows
  {
    if user.role != ADMIN then (403, [])
    else
      FilterIsSubseq(rows, UnderAdmin(user.userId));
      if user.userId.None? then
        FilterKeepsAll(rows, UnderAdmin(None));
        (200, Filter(rows, UnderAdmin(user.userId)))
      else (200, Filter(rows, UnderAdmin(user.userId)))
  }

  /** `getEmployee` (lines 26-42): 404 for an unknown id, 403 when access is denied,
      otherwise the record. */
  function ReadEmployee(rows: seq<Employee>, id: int, user: Payload): (r: (int, Option<Employee>))
    ensures FindEmployee(rows, id).None? ==> r == (404, None)
    ensures r.0 == 200 <==> FindEmployee(rows, id).Some? && !AccessDenied(FindEmployee(rows, id).value, user)
    ensures r.0 == 200 ==> r.1.Some? && r.1.value in rows && r.1.value.id == id
    ensures r.0 != 200 ==> r.1.None?
  {
    match FindEmployee(rows, id)
    case None => (404, None)
    case Some(e) => if AccessDenied(e, user) then (403, None) else (200, Some(e))
  }

  /** An ADMIN reads through `getEmployee` exactly the records `getEmployees` lists for them. */
  lemma AdminReadsWhatTheyList(rows: seq<Employee>, id: int, user: Payload)
    requires user.role == ADMIN && user.userId.Some?
    requires FindEmployee(rows, id).Some?
    ensures ReadEmployee(rows, id, user).0 == 200 <==> FindEmployee(rows, id).value in ListEmployees(rows, user).1
  {
  }

  // ---------------------------------------------------------------------------
  // createEmployee

  datatype EmployeeBody = EmployeeBody(
    firstName: Option<string>, lastName: Option<string>, department: Option<string>,
    manager: Option<string>, companyId: Option<int>, email: Option<string>, password: Option<string>)

  /** The statuses decided before anything is written (lines 53-58): 403 for every role but
      ADMIN, 400 without a non-empty first name, email and password. */
  function CreateCheck(user: Payload, body: EmployeeBody): (r: Option<int>)
    ensures r.None? <==> user.role == ADMIN && Present(body.firstName) && Present(body.email) && Present(body.password)
    ensures user.role != ADMIN ==> r == Some(403)
  {
    if user.role != ADMIN then Some(403)
    else if !Present(body.firstName) || !Present(body.email) || !Present(body.password) then Some(400)
    else None
  }

  /** The new employee row (lines 67-77): the body's profile fields, the caller as admin,
      linked to the new user; the fields the body does not supply are null. */
  function NewEmployee(id: int, userId: int, body: EmployeeBody, user: Payload): (r: Employee)
    requires body.firstName.Some?
    ensures r.id == id && r.userId == userId && r.firstName == body.firstName.value
    ensures r.adminId == user.userId && r.managerId.None? && r.hrId.None?
  {
    Employee(id, userId, body.firstName.value, body.lastName, body.department, None, body.manager,
             body.companyId, user.userId, None, None)
  }

  /** `createEmployee`: a user with role EMPLOYEE and the hashed password, then its
      employee record. A duplicate email fails the user insert (500, nothing written); an
      employee row already linked to the new user id fails the second insert (500, with
      the user already stored). */
  method CreateEmployee(user: Payload, body: EmployeeBody, hash: string -> string, users: UserTable, employees: EmployeeTable)
    returns (code: int)
    requires users.Valid() && employees.Valid()
    modifies users, employees
    ensures users.Valid() && employees.Valid()
    ensures var check := CreateCheck(user, body);
      var uid := old(users.nextId);
      && (check.Some? ==> code == check.value && unchanged(users) && unchanged(employees))
      && (check.None? && EmailTaken(old(users.rows), body.email.value) ==>
            code == 500 && unchanged(users) && unchanged(employees))
      && (check.None? && !EmailTaken(old(users.rows), body.email.value) ==>
            && users.rows == old(users.rows) + [User(uid, body.email.value, hash(body.password.value), EMPLOYEE)]
            && users.nextId == uid + 1
            && (EmployeeOfUser(old(employees.rows), uid).Some? ==> code == 500 && unchanged(employees))
            && (EmployeeOfUser(old(employees.rows), uid).None? ==>
                  && code == 201
                  && employees.rows == old(employees.rows) + [NewEmployee(old(employees.nextId), uid, body, user)]
                  && employees.nextId == old(employees.nextId) + 1))
  {
    var check := CreateCheck(user, body);
    if check.Some? {
      return check.value;
    }
    if EmailTaken(users.rows, body.email.value) {
      return 500;
    }
    var u := User(users.nextId, body.email.value, hash(body.password.value), EMPLOYEE);
    InsertUserKeepsValid(users.rows, users.nextId, u);
    users.rows := users.rows + [u];
    users.nextId := users.nextId + 1;
    if EmployeeOfUser(employees.rows, u.id).Some? {
      return 500;
    }
    var e := NewEmployee(employees.nextId, u.id, body, user);
    InsertEmployeeKeepsValid(employees.rows, employees.nextId, e);
    employees.rows := employees.rows + [e];
    employees.nextId := employees.nextId + 1;
    code := 201;
  }

  /** When every employee is linked to an existing user, the new user's id is linked to
      no employee yet, so the second insert of `createEmployee` cannot fail. */
  lemma LinkedTablesCannotHalfCreate(users: seq<User>, usersNext: int, employees: seq<Employee>)
    requires UsersValid(users, usersNext)
    requires forall i :: 0 <= i < |employees| ==> FindUser(users, employees[i].userId).Some?
    ensures EmployeeOfUser(employees, usersNext).None?
  {
    forall i | 0 <= i < |employees|
      ensures employees[i].userId != usersNext
    {
      var u := FindUser(users, employees[i].userId).value;
      assert u.id < usersNext;
    }
  }

  // ---------------------------------------------------------------------------
  // updateEmployee

  /** The request body of `updateEmployee`, written through as given: None leaves a field
      unchanged, and for the nullable fields Some(None) sets it to null. */
  datatype Patch = Patch(
    userId: Option<int>, firstName: Option<string>, lastName: Option<Option<string>>,
    department: Option<Option<string>>, position: Option<Option<string>>, manager: Option<Option<string>>,
    companyId: Option<Option<int>>, adminId: Option<Option<int>>, managerId: Option<Option<int>>,
    hrId: Option<Option<int>>)

  function Pick<T>(given: Option<T>, old_: T): T {
    if given.Some? then given.value else old_
  }

  /** A field after the write: the given value, or the old one when the body omits it. */
  predicate Written<T(==)>(given: Option<T>, before: T, after: T) {
    && (given.Some? ==> after == given.value)
    && (given.None? ==> after == before)
  }

  /** The record after the body is written through (lines 103-106). */
  function Patched(e: Employee, p: Patch): (r: Employee)
    ensures r.id == e.id
    ensures Written(p.userId, e.userId, r.userId)
    ensures Written(p.firstName, e.firstName, r.firstName)
    ensures Written(p.lastName, e.lastName, r.lastName)
    ensures Written(p.department, e.department, r.department)
    ensures Written(p.position, e.position, r.position)
    ensures Written(p.manager, e.manager, r.manager)
    ensures Written(p.companyId, e.companyId, r.companyId)
    ensures Written(p.adminId, e.adminId, r.adminId)
    ensures Written(p.managerId, e.managerId, r.managerId)
    ensures Written(p.hrId, e.hrId, r.hrId)
    ensures p == Patch(None, None, None, None, None, None, None, None, None, None) ==> r == e
  {
    Employee(e.id, Pick(p.userId, e.userId), Pick(p.firstName, e.firstName), Pick(p.lastName, e.lastName),
             Pick(p.department, e.department), Pick(p.position, e.position), Pick(p.manager, e.manager),
             Pick(p.companyId, e.companyId), Pick(p.adminId, e.adminId), Pick(p.managerId, e.managerId),
             Pick(p.hrId, e.hrId))
  }

  /** The statuses of `updateEmployee`: 404 for an unknown id, 403 when access is denied,
      500 when the new `userId` belongs to another employee (the unique constraint). */
  function UpdateCheck(rows: seq<Employee>, id: int, user: Payload, p: Patch): (r: Option<int>)
    ensures IndexOfEmployee(rows, id).None? ==> r == Some(404)
    ensures IndexOfEmployee(rows, id).Some? ==>
              (r == Some(403) <==> AccessDenied(rows[IndexOfEmployee(rows, id).value], user))
    ensures r == Some(500) <==>
              && IndexOfEmployee(rows, id).Some?
              && !AccessDenied(rows[IndexOfEmployee(rows, id).value], user)
              && p.userId.Some?
              && exists i :: 0 <= i < |rows| && i != IndexOfEmployee(rows, id).value && rows[i].userId == p.userId.value
    ensures r.None? <==>
              && IndexOfEmployee(rows, id).Some?
              && !AccessDenied(rows[IndexOfEmployee(rows, id).value], user)
              && (p.userId.None? ||
                  forall i :: 0 <= i < |rows| && i != IndexOfEmployee(rows, id).value ==> rows[i].userId != p.userId.value)
  {
    match IndexOfEmployee(rows, id)
    case None => Some(404)
    case Some(k) =>
      if AccessDenied(rows[k], user) then Some(403)
      else if p.userId.Some? && exists i :: 0 <= i < |rows| && i != k && rows[i].userId == p.userId.value then Some(500)
      else None
  }

  /** `updateEmployee`: only the addressed record changes, to the body written over it. */
  method UpdateEmployee(id: int, user: Payload, p: Patch, table: EmployeeTable) returns (code: int)
    requires table.Valid()
    modifies table
    ensures table.Valid() && table.nextId == old(table.nextId)
    ensures var check := UpdateCheck(old(table.rows), id, user, p);
      && (check.Some? ==> code == check.value && table.rows == old(table.rows))
      && (check.None? ==>
            var k := IndexOfEmployee(old(table.rows), id).value;
            code == 200 && table.rows == old(table.rows)[k := Patched(old(table.rows)[k], p)])
  {
    var check := UpdateCheck(table.rows, id, user, p);
    if check.Some? {
      return check.value;
    }
    var k := IndexOfEmployee(table.rows, id).value;
    var before := table.rows;
    table.rows := table.rows[k := Patched(table.rows[k], p)];
    assert forall i :: 0 <= i < |table.rows| && i != k ==> table.rows[i] == before[i];
    code := 200;
  }

  /** The body is not filtered: an ADMIN owning a record can hand it to another admin,
      after which they can neither read nor update it. */
  lemma OwnerCanGiveAway(rows: seq<Employee>, id: int, user: Payload, other: int)
    requires user.role == ADMIN && user.userId.Some? && user.userId.value != other
    requires IndexOfEmployee(rows, id).Some? && AdministeredBy(rows[IndexOfEmployee(rows, id).value], user)
    ensures var p := Patch(None, None, None, None, None, None, None, Some(Some(other)), None, None);
      var k := IndexOfEmployee(rows, id).value;
      UpdateCheck(rows, id, user, p).None? && AccessDenied(Patched(rows[k], p), user)
  {
  }

  // ---------------------------------------------------------------------------
  // deleteEmployee

  /** The statuses of `deleteEmployee` (lines 119-127): 403 for every role but ADMIN, 404
      for an unknown id, 403 for a record the caller does not administer. */
  function DeleteCheck(rows: seq<Employee>, id: int, user: Payload): (r: Option<int>)
    ensures user.role != ADMIN ==> r == Some(403)
    ensures user.role == ADMIN && IndexOfEmployee(rows, id).None? ==> r == Some(404)
    ensures r.None? <==>
              user.role == ADMIN && IndexOfEmployee(rows, id).Some?
              && AdministeredBy(rows[IndexOfEmployee(rows, id).value], user)
  {
    if user.role != ADMIN then Some(403)
    else match IndexOfEmployee(rows, id)
      case None => Some(404)
      case Some(k) => if AdministeredBy(rows[k], user) then None else Some(403)
  }

  /** `deleteEmployee`: exactly the addressed record is removed. */
  method DeleteEmployee(id: int, user: Payload, table: EmployeeTable) returns (code: int)
    requires table.Valid()
    modifies table
    ensures table.Valid() && table.nextId == old(table.nextId)
    ensures var check := DeleteCheck(old(table.rows), id, user);
      && (check.Some? ==> code == check.value && table.rows == old(table.rows))
      && (check.None? ==>
            var k := IndexOfEmployee(old(table.rows), id).value;
            code == 200 && table.rows == old(table.rows)[..k] + old(table.rows)[k + 1..])
  {
    var check := DeleteCheck(table.rows, id, user);
    if check.Some? {
      return check.value;
    }
    var k := IndexOfEmployee(table.rows, id).value;
    DeleteKeepsValid(table.rows, table.nextId, k);
    table.rows := table.rows[..k] + table.rows[k + 1..];
    code := 200;
  }

  /** Removing one row keeps the table valid. */
  lemma DeleteKeepsValid(rows: seq<Employee>, nextId: int, k: nat)
    requires EmployeesValid(rows, nextId) && k < |rows|
    ensures EmployeesValid(rows[..k] + rows[k + 1..], nextId)
  {
    var after := rows[..k] + rows[k + 1..];
    assert forall i :: 0 <= i < |after| ==> after[i] == rows[if i < k then i else i + 1];
  }

  /** After a delete no record carries the removed id. */
  lemma DeleteRemovesTheId(rows: seq<Employee>, nextId: int, k: nat)
    requires EmployeesValid(rows, nextId) && k < |rows|
    ensures forall e :: e in rows[..k] + rows[k + 1..] ==> e.id != rows[k].id
  {
    var after := rows[..k] + rows[k + 1..];
    forall j | 0 <= j < |after|
      ensures after[j].id != rows[k].id
    {
      if j < k {
        assert after[j] == rows[j];
      } else {
        assert after[j] == rows[j + 1];
      }
    }
  }

  /** A delete keeps every other record. */
  lemma DeleteKeepsTheOthers(rows: seq<Employee>, k: nat)
    requires k < |rows|
    ensures forall i :: 0 <= i < |rows| && i != k ==> rows[i] in rows[..k] + rows[k + 1..]
  {
    var after := rows[..k] + rows[k + 1..];
    forall i | 0 <= i < |rows| && i != k
      ensures rows[i] in after
    {
      if i < k {
        assert after[i] == rows[i];
      } else {
        assert after[i - 1] == rows[i];
      }
    }
  }
}
