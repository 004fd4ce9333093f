/** Registration and login (Backend/src/controllers/authController.js). Password hashing
    and checking (argon2) and token signing (`jwt.sign`) are parameters: `hash`,
    `matches(password, stored)` and `sign(claims)`. */
module Auth {
  import opened Common
  import opened Store

  /** What the token signs: `{ userId, role }` (lines 47-51 and 89-91). */
  datatype Claims = Claims(userId: int, role: string)

  /** The payload such a token carries once verified: no `id`, no `employeeId`. */
  function SignedPayload(c: Claims): (r: Payload)
    ensures r.userId == Some(c.userId) && r.role == c.role && r.id.None? && r.employeeId.None?
  {
    Payload(None, Some(c.userId), c.role, None)
  }

  /** The `user` object of a response. */
  datatype AuthUser = AuthUser(id: int, email: string, role: string, employeeId: Option<int>, adminId: Option<int>)

  function UserByEmail(rows: seq<User>, email: string): (r: Option<User>)
    ensures r.Some? ==> r.value in rows && r.value.email == email
    ensures r.None? <==> !EmailTaken(rows, email)
  {
    Find(rows, (u: User) => u.email == email)
  }

  // ---------------------------------------------------------------------------
  // register

  datatype RegisterBody = RegisterBody(
    email: Option<string>, password: Option<string>, firstName: Option<string>,
    lastName: Option<string>, role: Option<string>, adminId: Option<int>)

  /** The statuses decided before anything is written (lines 13-18): 400 without a
      non-empty email, password, first name and role, 400 for an email already in use.
      The role string is not compared with the four known roles. */
  function RegisterCheck(users: seq<User>, body: RegisterBody): (r: Option<int>)
    ensures r.None? <==>
              Present(body.email) && Present(body.password) && Present(body.firstName) && Present(body.role)
              && !EmailTaken(users, body.email.value)
    ensures r.Some? ==> r == Some(400)
  {
    if !Present(body.email) || !Present(body.password) || !Present(body.firstName) || !Present(body.role) then Some(400)
    else if EmailTaken(users, body.email.value) then Some(400)
    else None
  }

  /** The employee profile of a registering EMPLOYEE (lines 36-43): `lastName || null`,
      `adminId || null`. */
  function RegisteredEmployee(id: int, userId: int, body: RegisterBody): (r: Employee)
    requires body.firstName.Some?
    ensures r.id == id && r.userId == userId && r.firstName == body.firstName.value
    ensures Present(body.lastName) ==> r.lastName == body.lastName
    ensures !Present(body.lastName) ==> r.lastName.None?
    ensures Truthy(body.adminId) ==> r.adminId == body.adminId
    ensures !Truthy(body.adminId) ==> r.adminId.None?
    ensures r.managerId.None? && r.hrId.None?
  {
    Employee(id, userId, body.firstName.value, if Present(body.lastName) then body.lastName else None,
             None, None, None, None, if Truthy(body.adminId) then body.adminId else None, None, None)
  }

  /** `register`: the user with the hashed password and the given role; for role
      EMPLOYEE also its profile. The response names the profile's id and admin, or null
      for every other role, and the token signs the new user's id and role. An employee
      row already linked to the new user id fails the second insert (500, the user
      already stored). */
  method Register(body: RegisterBody, hash: string -> string, sign: Claims -> string,
                  users: UserTable, employees: EmployeeTable)
    returns (code: int, user: Option<AuthUser>, token: Option<string>)
    requires users.Valid() && employees.Valid()
    modifies users, employees
    ensures users.Valid() && employees.Valid()
    ensures code == 201 <==> user.Some?
    ensures code == 201 <==> token.Some?
    ensures RegisterCheck(old(users.rows), body).Some? ==>
              code == 400 && unchanged(users) && unchanged(employees)
    ensures RegisterCheck(old(users.rows), body).None? ==>
              var uid := old(users.nextId);
              && users.rows == old(users.rows) + [User(uid, body.email.value, hash(body.password.value), body.role.value)]
              && users.nextId == uid + 1
              && (body.role.value != EMPLOYEE ==>
                    && unchanged(employees) && code == 201
                    && user == Some(AuthUser(uid, body.email.value, body.role.value, None, None)))
              && (body.role.value == EMPLOYEE && EmployeeOfUser(old(employees.rows), uid).Some? ==>
                    code == 500 && unchanged(employees))
              && (body.role.value == EMPLOYEE && EmployeeOfUser(old(employees.rows), uid).None? ==>
                    var e := RegisteredEmployee(old(employees.nextId), uid, body);
                    && employees.rows == old(employees.rows) + [e]
                    && employees.nextId == old(employees.nextId) + 1
                    && code == 201
                    && user == Some(AuthUser(uid, body.email.value, EMPLOYEE, Some(e.id), e.adminId)))
              && (code == 201 ==> token == Some(sign(Claims(uid, body.role.value))))
  {
    if RegisterCheck(users.rows, body).Some? {
      return 400, None, None;
    }
    var u := User(users.nextId, body.email.value, hash(body.password.value), body.role.value);
    InsertUserKeepsValid(users.rows, users.nextId, u);
    users.rows := users.rows + [u];
    users.nextId := users.nextId + 1;
    var employeeId: Option<int> := None;
    var adminId: Option<int> := None;
    if u.role == EMPLOYEE {
      if EmployeeOfUser(employees.rows, u.id).Some? {
        return 500, None, None;
      }
      var e := RegisteredEmployee(employees.nextId, u.id, body);
      InsertEmployeeKeepsValid(employees.rows, employees.nextId, e);
      employees.rows := employees.rows + [e];
      employees.nextId := employees.nextId + 1;
      employeeId, adminId := Some(e.id), e.adminId;
    }
    code := 201;
    user := Some(AuthUser(u.id, u.email, u.role, employeeId, adminId));
    token := Some(sign(Claims(u.id, u.role)));
  }

  /** A registration that passes the checks stores a role that need not be one of the
      four known ones. */
  lemma RegisterStoresAnyRole(users: seq<User>, email: string, role: string)
    requires email != "" && role != "" && !EmailTaken(users, email)
    ensures RegisterCheck(users, RegisterBody(Some(email), Some("pw"), Some("A"), None, Some(role), None)).None?
  {
  }

  // ---------------------------------------------------------------------------
  // login

  /** The login response: the user, the employees they administer and the token. */
  datatype Session = Session(user: AuthUser, employeesUnderAdmin: seq<Employee>, token: string)

  function AdminOf(userId: int): Employee -> bool {
    (e: Employee) => e.adminId == Some(userId)
  }

  /** `login` (lines 72-104): 400 without both fields, the same 401 for an unknown email
      and for a wrong password, otherwise the session. The profile is the employee
      linked to the user; `employeesUnderAdmin` is the employees whose `adminId` is the
      user for ADMIN and empty for every other role. */
  function Login(users: seq<User>, employees: seq<Employee>, email: Option<string>, password: Option<string>,
                 matches: (string, string) -> bool, sign: Claims -> string): (r: (int, Option<Session>))
    ensures !Present(email) || !Present(password) ==> r == (400, None)
    ensures r.0 == 200 <==> r.1.Some?
    ensures r.0 == 200 <==>
              Present(email) && Present(password) && UserByEmail(users, email.value).Some?
              && matches(password.value, UserByEmail(users, email.value).value.password)
    ensures r.1.Some? ==>
              var u := UserByEmail(users, email.value).value;
              var s := r.1.value;
              && s.user.id == u.id && s.user.email == email.value && s.user.role == u.role
              && s.token == sign(Claims(u.id, u.role))
              && (EmployeeOfUser(employees, u.id).Some? ==>
                    s.user.employeeId == Some(EmployeeOfUser(employees, u.id).value.id)
                    && s.user.adminId == EmployeeOfUser(employees, u.id).value.adminId)
              && (EmployeeOfUser(employees, u.id).None? ==> s.user.employeeId.None? && s.user.adminId.None?)
              && (u.role != ADMIN ==> s.employeesUnderAdmin == [])
              && (u.role == ADMIN ==> forall e :: e in s.employeesUnderAdmin <==> e in employees && e.adminId == Some(u.id))
  {
    if !Present(email) || !Present(password) then (400, None)
    else match UserByEmail(users, email.value)
      case None => (401, None)
      case Some(u) =>
        if !matches(password.value, u.password) then (401, None)
        else
          var profile := EmployeeOfUser(employees, u.id);
          var employeeId := if profile.Some? then Some(profile.value.id) else None;
          var adminId := if profile.Some? then profile.value.adminId else None;
          var under := if u.role == ADMIN then Filter(employees, AdminOf(u.id)) else [];
          (200, Some(Session(AuthUser(u.id, u.email, u.role, employeeId, adminId), under, sign(Claims(u.id, u.role)))))
  }

  /** An unknown email and a wrong password produce the identical answer. */
  lemma LoginFailuresLookAlike(users: seq<User>, employees: seq<Employee>, email: string, password: string,
                               matches: (string, string) -> bool, sign: Claims -> string)
    requires email != "" && password != ""
    requires UserByEmail(users, email).None? || !matches(password, UserByEmail(users, email).value.password)
    ensures Login(users, employees, Some(email), Some(password), matches, sign) == (401, None)
  {
  }

  /** A user just registered with a password that `matches` accepts against its own hash
      can log in, and the new session signs the same claims as the registration token. */
  lemma RegisteredUserCanLogIn(users: seq<User>, nextId: int, employees: seq<Employee>, body: RegisterBody,
                               hash: string -> string, matches: (string, string) -> bool, sign: Claims -> string)
    requires UsersValid(users, nextId)
    requires RegisterCheck(users, body).None?
    requires matches(body.password.value, hash(body.password.value))
    ensures var after := users + [User(nextId, body.email.value, hash(body.password.value), body.role.value)];
      var r := Login(after, employees, body.email, body.password, matches, sign);
      r.0 == 200 && r.1.value.token == sign(Claims(nextId, body.role.value))
  {
    var u := User(nextId, body.email.value, hash(body.password.value), body.role.value);
    var after := users + [u];
    assert after[|users|] == u;
    assert UserByEmail(after, body.email.value) == Some(u) by {
      assert forall i :: 0 <= i < |users| ==> after[i].email != body.email.value;
    }
  }
}
