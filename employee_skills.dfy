/** The second skill-request controller (Backend/src/controllers/employeeSkillController.js).
    It takes the employee from the token's `employeeId` and updates statuses without any
    ownership check. Tokens issued at login carry no `employeeId`; the model keeps that
    field optional and follows the code for both cases. */
module EmployeeSkills {
  import opened Common
  import opened Store
  import opened Skills

  /** The error statuses of `requestSkill` (lines 9-19), or None when the record is
      stored. Without `employeeId` the create is missing a required field (500). */
  function RequestCheck(user: Payload, skillId: Option<int>, level: Option<string>, employees: seq<Employee>,
                        skills: seq<Skill>, rows: seq<EmployeeSkill>): (r: Option<int>)
    ensures !Truthy(skillId) || !Present(level) ==> r == Some(400)
    ensures Truthy(skillId) && Present(level) && user.employeeId.None? ==> r == Some(500)
    ensures r.None? <==>
              Truthy(skillId) && Present(level) && user.employeeId.Some?
              && FindEmployee(employees, user.employeeId.value).Some?
              && InsertCheck(rows, skills, user.employeeId.value, skillId.value).None?
  {
    if !Truthy(skillId) || !Present(level) then Some(400)
    else if user.employeeId.None? || FindEmployee(employees, user.employeeId.value).None? then Some(500)
    else InsertCheck(rows, skills, user.employeeId.value, skillId.value)
  }

  /** `requestSkill`: the record is created PENDING for the token's employee. */
  method RequestSkill(user: Payload, skillId: Option<int>, level: Option<string>, employees: seq<Employee>,
                      skills: seq<Skill>, table: EmployeeSkillTable)
    returns (code: int)
    requires table.Valid()
    modifies table
    ensures table.Valid()
    ensures var check := RequestCheck(user, skillId, level, employees, skills, old(table.rows));
      && (check.Some? ==> code == check.value && table.rows == old(table.rows) && table.nextId == old(table.nextId))
      && (check.None? ==>
            && code == 201
            && table.rows == old(table.rows)
                 + [RequestRecord(old(table.nextId), user.employeeId.value, skillId.value, level.value)]
            && table.nextId == old(table.nextId) + 1)
  {
    var check := RequestCheck(user, skillId, level, employees, skills, table.rows);
    if check.Some? {
      return check.value;
    }
    InsertKeepsValid(table.rows, table.nextId, skills, user.employeeId.value, skillId.value, level.value);
    table.rows := table.rows + [RequestRecord(table.nextId, user.employeeId.value, skillId.value, level.value)];
    table.nextId := table.nextId + 1;
    code := 201;
  }

  /** A token issued at login or registration (no `employeeId`) can never create a
      request here. */
  lemma SignedTokenCannotRequest(userId: int, role: string, skillId: Option<int>, level: Option<string>,
                                 employees: seq<Employee>, skills: seq<Skill>, rows: seq<EmployeeSkill>)
    ensures RequestCheck(Payload(None, Some(userId), role, None), skillId, level, employees, skills, rows).Some?
  {
  }

  /** The error statuses of `updateSkillStatus` (lines 34-41): 400 for a status other than
      APPROVED or REJECTED; an unknown id makes the update throw (500). No ownership
      check. */
  function UpdateCheck(rows: seq<EmployeeSkill>, id: int, status: Option<string>): (r: Option<int>)
    ensures Decision(status).None? ==> r == Some(400)
    ensures r.None? <==> Decision(status).Some? && IndexOfEmployeeSkill(rows, id).Some?
  {
    if Decision(status).None? then Some(400)
    else if IndexOfEmployeeSkill(rows, id).None? then Some(500)
    else None
  }

  /** `updateSkillStatus`: only the `status` field of the addressed record changes. */
  method UpdateSkillStatus(id: int, status: Option<string>, table: EmployeeSkillTable) returns (code: int)
    requires table.Valid()
    modifies table
    ensures table.Valid() && table.nextId == old(table.nextId)
    ensures var check := UpdateCheck(old(table.rows), id, status);
      && (check.Some? ==> code == check.value && table.rows == old(table.rows))
      && (check.None? ==>
            code == 200
            && table.rows == WithStatus(old(table.rows), IndexOfEmployeeSkill(old(table.rows), id).value, Decision(status).value))
  {
    var check := UpdateCheck(table.rows, id, status);
    if check.Some? {
      return check.value;
    }
    var k := IndexOfEmployeeSkill(table.rows, id).value;
    WithStatusKeepsValid(table.rows, table.nextId, k, Decision(status).value);
    table.rows := WithStatus(table.rows, k, Decision(status).value);
    code := 200;
  }

  /** Whoever the caller is, a valid status on an existing record is written. */
  lemma AnyCallerMayUpdate(rows: seq<EmployeeSkill>, id: int, status: string)
    requires status == "APPROVED" || status == "REJECTED"
    requires IndexOfEmployeeSkill(rows, id).Some?
    ensures UpdateCheck(rows, id, Some(status)).None?
  {
  }

  /** The employee whose records are listed: the path id when given, else the token's
      `employeeId` (possibly absent). */
  function ListedEmployee(pathId: Option<int>, user: Payload): (r: Option<int>)
    ensures pathId.Some? ==> r == pathId
    ensures pathId.None? ==> r == user.employeeId
  {
    if pathId.Some? then pathId else user.employeeId
  }

  function MatchesEmployee(employeeId: Option<int>): EmployeeSkill -> bool {
    (x: EmployeeSkill) => employeeId.None? || x.employeeId == employeeId.value
  }

  /** `getEmployeeSkills` (lines 53-58): the records of the listed employee; with no
      employee at all the filter `{ employeeId: undefined }` is dropped and every record
      is returned. */
  function EmployeeSkillList(rows: seq<EmployeeSkill>, pathId: Option<int>, user: Payload): (r: seq<EmployeeSkill>)
    ensures ListedEmployee(pathId, user).Some? ==>
              forall x :: x in r <==> x in rows && x.employeeId == ListedEmployee(pathId, user).value
    ensures ListedEmployee(pathId, user).None? ==> r == rows
  {
    var r := Filter(rows, MatchesEmployee(ListedEmployee(pathId, user)));
    if ListedEmployee(pathId, user).None? then
      FilterKeepsAll(rows, MatchesEmployee(None));
      r
    else r
  }

  /** With a token from login and no path id, the list is every record of every employee. */
  lemma SignedTokenListsEverything(rows: seq<EmployeeSkill>, userId: int, role: string)
    ensures EmployeeSkillList(rows, None, Payload(None, Some(userId), role, None)) == rows
  {
  }
}
