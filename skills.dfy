/** The skill catalogue and skill requests (Backend/src/controllers/skillController.js). An
    admin adds skills to the catalogue; an employee requests a skill at a level, which waits
    as PENDING until the employee's own admin approves or rejects it. */
module Skills {
  import opened Common
  import opened Store

  // ---------------------------------------------------------------------------
  // createSkill

  /** The error statuses of lines 7-12, or None when the skill is created. */
  function CreateSkillCheck(catalogue: seq<Skill>, name: Option<string>): (r: Option<int>)
    ensures r.None? <==> Present(name) && !SkillNameTaken(catalogue, name.value)
    ensures r.Some? ==> r == Some(400)
  {
    if !Present(name) then Some(400)
    else if SkillNameTaken(catalogue, name.value) then Some(400)
    else None
  }

  /** `category || null`. */
  function StoredCategory(category: Option<string>): (r: Option<string>)
    ensures Present(category) ==> r == category
    ensures !Present(category) ==> r.None?
  {
    if Present(category) then category else None
  }

  /** `createSkill`: a refused request leaves the catalogue as it was; otherwise the skill
      is appended with the next id. */
  method CreateSkill(name: Option<string>, category: Option<string>, table: SkillTable) returns (code: int)
    requires table.Valid()
    modifies table
    ensures table.Valid()
    ensures CreateSkillCheck(old(table.rows), name).Some? ==>
              code == 400 && table.rows == old(table.rows) && table.nextId == old(table.nextId)
    ensures CreateSkillCheck(old(table.rows), name).None? ==>
              code == 201
              && table.rows == old(table.rows) + [Skill(old(table.nextId), name.value, StoredCategory(category))]
              && table.nextId == old(table.nextId) + 1
  {
    var check := CreateSkillCheck(table.rows, name);
    if check.Some? {
      return check.value;
    }
    table.rows := table.rows + [Skill(table.nextId, name.value, StoredCategory(category))];
    table.nextId := table.nextId + 1;
    code := 201;
  }

  /** Creating a skill whose name is taken fails, so the catalogue never holds a name
      twice: after a successful creation the name occurs exactly once. */
  lemma CreatedNameIsUnique(catalogue: seq<Skill>, nextId: int, name: Option<string>, category: Option<string>)
    requires CreateSkillCheck(catalogue, name).None?
    ensures var after := catalogue + [Skill(nextId, name.value, StoredCategory(category))];
      forall i :: 0 <= i < |after| - 1 ==> after[i].name != name.value
  {
  }

  // ---------------------------------------------------------------------------
  // requestSkill

  /** The request record of lines 52-58; the fields it does not set take their defaults. */
  function RequestRecord(id: int, employeeId: int, skillId: int, level: string): (r: EmployeeSkill)
    ensures r.id == id && r.employeeId == employeeId && r.skillId == skillId && r.level == Some(level)
    ensures r.status == Pending && r.managerStatus == Pending
    ensures r.selfRating.None? && r.managerRating.None? && r.managerApprovedBy.None?
  {
    EmployeeSkill(id, employeeId, skillId, Some(level), Pending, None, None, Pending, None, None, None, None)
  }

  /** The status of `employeeSkill.create`: a missing skill (foreign key) or an existing
      record for the pair (unique key) makes Prisma throw, which answers 500. */
  function InsertCheck(rows: seq<EmployeeSkill>, skills: seq<Skill>, employeeId: int, skillId: int): (r: Option<int>)
    ensures r.None? <==> FindSkill(skills, skillId).Some? && !RatingExists(rows, employeeId, skillId)
    ensures r.Some? ==> r == Some(500)
  {
    if FindSkill(skills, skillId).None? || RatingExists(rows, employeeId, skillId) then Some(500) else None
  }

  /** The error statuses of `requestSkill` (lines 41-59) in their order, or None when the
      request is stored. A token without `userId` makes the lookup throw (500). */
  function RequestSkillCheck(user: Payload, skillId: Option<int>, level: Option<string>, employees: seq<Employee>,
                             skills: seq<Skill>, rows: seq<EmployeeSkill>): (r: Option<int>)
    ensures !Truthy(skillId) || !Present(level) ==> r == Some(400)
    ensures Truthy(skillId) && Present(level) && user.userId.Some? && EmployeeOfUser(employees, user.userId.value).None? ==>
              r == Some(404)
    ensures r.None? <==>
              Truthy(skillId) && Present(level) && user.userId.Some?
              && EmployeeOfUser(employees, user.userId.value).Some?
              && InsertCheck(rows, skills, EmployeeOfUser(employees, user.userId.value).value.id, skillId.value).None?
  {
    if !Truthy(skillId) || !Present(level) then Some(400)
    else if user.userId.None? then Some(500)
    else
      match EmployeeOfUser(employees, user.userId.value)
      case None => Some(404)
      case Some(e) => InsertCheck(rows, skills, e.id, skillId.value)
  }

  /** Inserting a request that passed `InsertCheck` keeps the table invariant. */
  lemma InsertKeepsValid(rows: seq<EmployeeSkill>, nextId: int, skills: seq<Skill>, employeeId: int, skillId: int, level: string)
    requires EmployeeSkillsValid(rows, nextId)
    requires InsertCheck(rows, skills, employeeId, skillId).None?
    ensures EmployeeSkillsValid(rows + [RequestRecord(nextId, employeeId, skillId, level)], nextId + 1)
  {
    var r := rows + [RequestRecord(nextId, employeeId, skillId, level)];
    forall i, j | 0 <= i < j < |r|
      ensures r[i].id != r[j].id && (r[i].employeeId != r[j].employeeId || r[i].skillId != r[j].skillId)
    {
      if j == |rows| {
        assert r[i] == rows[i];
      }
    }
  }

  /** `requestSkill`: the request is appended as PENDING for the caller's employee. */
  method RequestSkill(user: Payload, skillId: Option<int>, level: Option<string>, employees: seq<Employee>,
                      skills: seq<Skill>, table: EmployeeSkillTable)
    returns (code: int)
    requires table.Valid()
    modifies table
    ensures table.Valid()
    ensures var check := RequestSkillCheck(user, skillId, level, employees, skills, old(table.rows));
      && (check.Some? ==> code == check.value && table.rows == old(table.rows) && table.nextId == old(table.nextId))
      && (check.None? ==>
            var e := EmployeeOfUser(employees, user.userId.value).value;
            && code == 201
            && table.rows == old(table.rows) + [RequestRecord(old(table.nextId), e.id, skillId.value, level.value)]
            && table.nextId == old(table.nextId) + 1)
  {
    var check := RequestSkillCheck(user, skillId, level, employees, skills, table.rows);
    if check.Some? {
      return check.value;
    }
    var e := EmployeeOfUser(employees, user.userId.value).value;
    InsertKeepsValid(table.rows, table.nextId, skills, e.id, skillId.value, level.value);
    table.rows := table.rows + [RequestRecord(table.nextId, e.id, skillId.value, level.value)];
    table.nextId := table.nextId + 1;
    code := 201;
  }

  // ---------------------------------------------------------------------------
  // updateEmployeeSkillStatus

  /** `['APPROVED', 'REJECTED'].includes(status)`. */
  function Decision(status: Option<string>): (r: Option<Status>)
    ensures r.Some? <==> status == Some("APPROVED") || status == Some("REJECTED")
    ensures r.Some? ==> r.value != Pending && StatusName(r.value) == status.value
  {
    if status.None? then None else ParseDecision(status.value)
  }

  /** The error statuses of lines 74-90 in their order, or None when the status is
      written. Only the admin recorded on the employee may decide. */
  function StatusUpdateCheck(rows: seq<EmployeeSkill>, employees: seq<Employee>, userId: Option<int>, id: int,
                             status: Option<string>): (r: Option<int>)
    ensures Decision(status).None? ==> r == Some(400)
    ensures Decision(status).Some? && IndexOfEmployeeSkill(rows, id).None? ==> r == Some(404)
    ensures r.None? <==>
              Decision(status).Some? && IndexOfEmployeeSkill(rows, id).Some?
              && var owner := FindEmployee(employees, rows[IndexOfEmployeeSkill(rows, id).value].employeeId);
                 owner.Some? && owner.value.adminId.Some? && userId == owner.value.adminId
    ensures r == Some(403) <==>
              Decision(status).Some? && IndexOfEmployeeSkill(rows, id).Some?
              && var owner := FindEmployee(employees, rows[IndexOfEmployeeSkill(rows, id).value].employeeId);
                 owner.None? || owner.value.adminId.None? || userId != owner.value.adminId
  {
    if Decision(status).None? then Some(400)
    else
      match IndexOfEmployeeSkill(rows, id)
      case None => Some(404)
      case Some(k) =>
        var owner := FindEmployee(employees, rows[k].employeeId);
        if owner.None? || owner.value.adminId.None? || userId != owner.value.adminId then Some(403) else None
  }

  /** Rewrites only the request status of the record at `k`. */
  function WithStatus(rows: seq<EmployeeSkill>, k: nat, s: Status): (r: seq<EmployeeSkill>)
    requires k < |rows|
    ensures |r| == |rows| && r[k] == rows[k].(status := s)
    ensures forall i :: 0 <= i < |rows| && i != k ==> r[i] == rows[i]
  {
    rows[k := rows[k].(status := s)]
  }

  /** A status rewrite keeps every key, so the table invariant holds afterwards. */
  lemma WithStatusKeepsValid(rows: seq<EmployeeSkill>, nextId: int, k: nat, s: Status)
    requires k < |rows| && EmployeeSkillsValid(rows, nextId)
    ensures EmployeeSkillsValid(WithStatus(rows, k, s), nextId)
  {
    var r := WithStatus(rows, k, s);
    assert forall i :: 0 <= i < |r| ==>
      (r[i].id == rows[i].id && r[i].employeeId == rows[i].employeeId && r[i].skillId == rows[i].skillId);
  }

  /** `updateEmployeeSkillStatus`. */
  method UpdateEmployeeSkillStatus(user: Payload, id: int, status: Option<string>, employees: seq<Employee>,
                                   table: EmployeeSkillTable)
    returns (code: int)
    requires table.Valid()
    modifies table
    ensures table.Valid() && table.nextId == old(table.nextId)
    ensures var check := StatusUpdateCheck(old(table.rows), employees, user.userId, id, status);
      && (check.Some? ==> code == check.value && table.rows == old(table.rows))
      && (check.None? ==>
            code == 200
            && table.rows == WithStatus(old(table.rows), IndexOfEmployeeSkill(old(table.rows), id).value, Decision(status).value))
  {
    var check := StatusUpdateCheck(table.rows, employees, user.userId, id, status);
    if check.Some? {
      return check.value;
    }
    var k := IndexOfEmployeeSkill(table.rows, id).value;
    WithStatusKeepsValid(table.rows, table.nextId, k, Decision(status).value);
    table.rows := WithStatus(table.rows, k, Decision(status).value);
    code := 200;
  }

  /** The status is checked before the record is looked up: an invalid status answers 400
      even for an unknown id. */
  lemma StatusCheckedFirst(rows: seq<EmployeeSkill>, employees: seq<Employee>, userId: Option<int>, id: int)
    requires IndexOfEmployeeSkill(rows, id).None?
    ensures StatusUpdateCheck(rows, employees, userId, id, Some("PENDING")) == Some(400)
    ensures StatusUpdateCheck(rows, employees, userId, id, Some("APPROVED")) == Some(404)
  {
  }

  // ---------------------------------------------------------------------------
  // getMySkills and getAllEmployeeSkillRequests

  function OfEmployee(employeeId: int): EmployeeSkill -> bool {
    (x: EmployeeSkill) => x.employeeId == employeeId
  }

  /** `getMySkills`: the status, and the caller's own records. */
  function MySkills(rows: seq<EmployeeSkill>, employees: seq<Employee>, userId: Option<int>): (r: (int, seq<EmployeeSkill>))
    ensures userId.None? ==> r.0 == 500 && r.1 == []
    ensures userId.Some? && EmployeeOfUser(employees, userId.value).None? ==> r.0 == 404 && r.1 == []
    ensures r.0 == 200 ==> userId.Some? && EmployeeOfUser(employees, userId.value).Some?
    ensures r.0 == 200 ==> forall x :: x in r.1 <==>
              x in rows && x.employeeId == EmployeeOfUser(employees, userId.value).value.id
  {
    if userId.None? then (500, [])
    else
      match EmployeeOfUser(employees, userId.value)
      case None => (404, [])
      case Some(e) => (200, Filter(rows, OfEmployee(e.id)))
  }

  /** The relation filter `employee: { adminId: userId }`; an absent `userId` drops it. */
  predicate AdministeredBy(x: EmployeeSkill, employees: seq<Employee>, userId: Option<int>) {
    exists i :: 0 <= i < |employees| && employees[i].id == x.employeeId && (userId.None? || employees[i].adminId == userId)
  }

  function AdministeredByUser(employees: seq<Employee>, userId: Option<int>): EmployeeSkill -> bool {
    (x: EmployeeSkill) => AdministeredBy(x, employees, userId)
  }

  /** `getAllEmployeeSkillRequests`: the records of employees administered by the caller. */
  function RequestsForAdmin(rows: seq<EmployeeSkill>, employees: seq<Employee>, userId: Option<int>): (r: seq<EmployeeSkill>)
    ensures forall x :: x in r <==> x in rows && AdministeredBy(x, employees, userId)
    ensures SubseqOf(r, rows)
  {
    FilterIsSubseq(rows, AdministeredByUser(employees, userId));
    Filter(rows, AdministeredByUser(employees, userId))
  }

  /** An admin who administers nobody sees no requests. */
  lemma NoEmployeesNoRequests(rows: seq<EmployeeSkill>, employees: seq<Employee>, userId: int)
    requires forall i :: 0 <= i < |employees| ==> employees[i].adminId != Some(userId)
    ensures RequestsForAdmin(rows, employees, Some(userId)) == []
  {
    FilterDropsAll(rows, AdministeredByUser(employees, Some(userId)));
  }
}
