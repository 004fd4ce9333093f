/** The Prisma tables the controllers read and write, as in-memory tables. Each table
    is an object holding its rows in insertion order and the next auto-increment id;
    `findMany` is an order-preserving filter over `rows` and `findUnique` the first row
    with the key. The unique constraints the controllers rely on are part of `Valid`. */
module Store {
  import opened Common

  datatype User = User(id: int, email: string, password: string, role: string)

  datatype Employee = Employee(
    id: int, userId: int, firstName: string, lastName: Option<string>,
    department: Option<string>, position: Option<string>, manager: Option<string>,
    companyId: Option<int>, adminId: Option<int>, managerId: Option<int>, hrId: Option<int>)

  datatype Skill = Skill(id: int, name: string, category: Option<string>)

  /** One row per (employee, skill): the skill request (`level`, `status`) and the
      self-rating with its manager decision (`managerStatus` and the fields after it). */
  datatype EmployeeSkill = EmployeeSkill(
    id: int, employeeId: int, skillId: int, level: Option<string>, status: Status,
    selfRating: Option<int>, selfComments: Option<string>,
    managerStatus: Status, managerRating: Option<int>, managerComments: Option<string>,
    managerApprovedAt: Option<int>, managerApprovedBy: Option<int>)

  datatype Project = Project(id: int, name: string, description: string, createdBy: int, status: string)

  datatype Requirement = Requirement(
    id: int, projectId: int, skillId: Option<int>, skillName: string, weight: real, isMissing: bool)

  datatype Assignment = Assignment(
    id: int, projectId: int, employeeId: int, managerId: int, selectedBy: int,
    managerStatus: Status, managerComments: Option<string>, approvedAt: Option<int>)

  datatype CandidateMatch = CandidateMatch(
    projectId: int, employeeId: int, skillIndex: real, matchPercentage: real, missingSkills: seq<string>)

  /** Position of the row with id `id`, if any. */
  function IndexOfUser(rows: seq<User>, id: int): (r: Option<nat>)
    ensures r.Some? ==> r.value < |rows| && rows[r.value].id == id
    ensures r.None? ==> forall i :: 0 <= i < |rows| ==> rows[i].id != id
  {
    FirstIndex(rows, (u: User) => u.id == id)
  }

  function IndexOfEmployee(rows: seq<Employee>, id: int): (r: Option<nat>)
    ensures r.Some? ==> r.value < |rows| && rows[r.value].id == id
    ensures r.None? ==> forall i :: 0 <= i < |rows| ==> rows[i].id != id
  {
    FirstIndex(rows, (e: Employee) => e.id == id)
  }

  function IndexOfEmployeeSkill(rows: seq<EmployeeSkill>, id: int): (r: Option<nat>)
    ensures r.Some? ==> r.value < |rows| && rows[r.value].id == id
    ensures r.None? ==> forall i :: 0 <= i < |rows| ==> rows[i].id != id
  {
    FirstIndex(rows, (es: EmployeeSkill) => es.id == id)
  }

  function IndexOfAssignment(rows: seq<Assignment>, id: int): (r: Option<nat>)
    ensures r.Some? ==> r.value < |rows| && rows[r.value].id == id
    ensures r.None? ==> forall i :: 0 <= i < |rows| ==> rows[i].id != id
  {
    FirstIndex(rows, (a: Assignment) => a.id == id)
  }

  /** `findUnique({ where: { userId } })` on the employee table. */
  function EmployeeOfUser(rows: seq<Employee>, userId: int): (r: Option<Employee>)
    ensures r.Some? ==> r.value in rows && r.value.userId == userId
    ensures r.None? ==> forall i :: 0 <= i < |rows| ==> rows[i].userId != userId
  {
    Find(rows, (e: Employee) => e.userId == userId)
  }

  function FindUser(rows: seq<User>, id: int): (r: Option<User>)
    ensures r.Some? ==> r.value in rows && r.value.id == id
    ensures r.None? ==> forall i :: 0 <= i < |rows| ==> rows[i].id != id
  {
    Find(rows, (u: User) => u.id == id)
  }

  function FindEmployee(rows: seq<Employee>, id: int): (r: Option<Employee>)
    ensures r.Some? ==> r.value in rows && r.value.id == id
    ensures r.None? ==> forall i :: 0 <= i < |rows| ==> rows[i].id != id
  {
    Find(rows, (e: Employee) => e.id == id)
  }

  function FindSkill(rows: seq<Skill>, id: int): (r: Option<Skill>)
    ensures r.Some? ==> r.value in rows && r.value.id == id
    ensures r.None? ==> forall i :: 0 <= i < |rows| ==> rows[i].id != id
  {
    Find(rows, (s: Skill) => s.id == id)
  }

  predicate EmailTaken(rows: seq<User>, email: string) {
    exists i :: 0 <= i < |rows| && rows[i].email == email
  }

  predicate SkillNameTaken(rows: seq<Skill>, name: string) {
    exists i :: 0 <= i < |rows| && rows[i].name == name
  }

  predicate RatingExists(rows: seq<EmployeeSkill>, employeeId: int, skillId: int) {
    exists i :: 0 <= i < |rows| && rows[i].employeeId == employeeId && rows[i].skillId == skillId
  }

  predicate AssignmentExists(rows: seq<Assignment>, projectId: int, employeeId: int) {
    exists i :: 0 <= i < |rows| && rows[i].projectId == projectId && rows[i].employeeId == employeeId
  }

  /** Ids below the counter and pairwise distinct; `email` unique. */
  predicate UsersValid(rows: seq<User>, nextId: int) {
    (forall i :: 0 <= i < |rows| ==> rows[i].id < nextId)
    && (forall i, j :: 0 <= i < j < |rows| ==> rows[i].id != rows[j].id && rows[i].email != rows[j].email)
  }

  /** Ids below the counter and pairwise distinct; `userId` unique. */
  predicate EmployeesValid(rows: seq<Employee>, nextId: int) {
    (forall i :: 0 <= i < |rows| ==> rows[i].id < nextId)
    && (forall i, j :: 0 <= i < j < |rows| ==> rows[i].id != rows[j].id && rows[i].userId != rows[j].userId)
  }

  /** A user with a fresh id and an unused email keeps the user table valid. */
  lemma InsertUserKeepsValid(rows: seq<User>, nextId: int, u: User)
    requires UsersValid(rows, nextId) && u.id == nextId && !EmailTaken(rows, u.email)
    ensures UsersValid(rows + [u], nextId + 1)
  {
  }

  /** An employee with a fresh id and an unused `userId` keeps the employee table valid. */
  lemma InsertEmployeeKeepsValid(rows: seq<Employee>, nextId: int, e: Employee)
    requires EmployeesValid(rows, nextId) && e.id == nextId && EmployeeOfUser(rows, e.userId).None?
    ensures EmployeesValid(rows + [e], nextId + 1)
  {
  }

  /** Ids below the counter and pairwise distinct; (`employeeId`, `skillId`) unique. */
  predicate EmployeeSkillsValid(rows: seq<EmployeeSkill>, nextId: int) {
    (forall i :: 0 <= i < |rows| ==> rows[i].id < nextId)
    && (forall i, j :: 0 <= i < j < |rows| ==>
          rows[i].id != rows[j].id
          && (rows[i].employeeId != rows[j].employeeId || rows[i].skillId != rows[j].skillId))
  }

  /** Ids below the counter and pairwise distinct; (`projectId`, `employeeId`) unique. */
  predicate AssignmentsValid(rows: seq<Assignment>, nextId: int) {
    (forall i :: 0 <= i < |rows| ==> rows[i].id < nextId)
    && (forall i, j :: 0 <= i < j < |rows| ==>
          rows[i].id != rows[j].id
          && (rows[i].projectId != rows[j].projectId || rows[i].employeeId != rows[j].employeeId))
  }

  /** The `user` table; `email` is unique. */
  class UserTable {
    var rows: seq<User>
    var nextId: int

    predicate Valid()
      reads this
    {
      UsersValid(rows, nextId)
    }

    constructor ()
      ensures Valid() && rows == [] && nextId == 1
    {
      rows := [];
      nextId := 1;
    }
  }

  /** The `employee` table; `userId` is unique. */
  class EmployeeTable {
    var rows: seq<Employee>
    var nextId: int

    predicate Valid()
      reads this
    {
      EmployeesValid(rows, nextId)
    }

    constructor ()
      ensures Valid() && rows == [] && nextId == 1
    {
      rows := [];
      nextId := 1;
    }
  }

  /** The `skill` table; `name` is unique. */
  class SkillTable {
    var rows: seq<Skill>
    var nextId: int

    predicate Valid()
      reads this
    {
      (forall i :: 0 <= i < |rows| ==> rows[i].id < nextId)
      && (forall i, j :: 0 <= i < j < |rows| ==> rows[i].id != rows[j].id && rows[i].name != rows[j].name)
    }

    constructor ()
      ensures Valid() && rows == [] && nextId == 1
    {
      rows := [];
      nextId := 1;
    }
  }

  /** The `employeeSkill` table; (`employeeId`, `skillId`) is unique. */
  class EmployeeSkillTable {
    var rows: seq<EmployeeSkill>
    var nextId: int

    predicate Valid()
      reads this
    {
      EmployeeSkillsValid(rows, nextId)
    }

    constructor ()
      ensures Valid() && rows == [] && nextId == 1
    {
      rows := [];
      nextId := 1;
    }
  }

  /** The `project` table. */
  class ProjectTable {
    var rows: seq<Project>
    var nextId: int

    predicate Valid()
      reads this
    {
      (forall i :: 0 <= i < |rows| ==> rows[i].id < nextId)
      && (forall i, j :: 0 <= i < j < |rows| ==> rows[i].id != rows[j].id)
    }

    constructor ()
      ensures Valid() && rows == [] && nextId == 1
    {
      rows := [];
      nextId := 1;
    }
  }

  /** The `projectSkillRequirement` table. */
  class RequirementTable {
    var rows: seq<Requirement>
    var nextId: int

    predicate Valid()
      reads this
    {
      (forall i :: 0 <= i < |rows| ==> rows[i].id < nextId)
      && (forall i, j :: 0 <= i < j < |rows| ==> rows[i].id != rows[j].id)
    }

    constructor ()
      ensures Valid() && rows == [] && nextId == 1
    {
      rows := [];
      nextId := 1;
    }
  }

  /** The `projectAssignment` table; (`projectId`, `employeeId`) is unique. */
  class AssignmentTable {
    var rows: seq<Assignment>
    var nextId: int

    predicate Valid()
      reads this
    {
      AssignmentsValid(rows, nextId)
    }

    constructor ()
      ensures Valid() && rows == [] && nextId == 1
    {
      rows := [];
      nextId := 1;
    }
  }

  /** The `projectCandidateMatch` table (its own ids are never read). */
  class MatchTable {
    var rows: seq<CandidateMatch>

    constructor ()
      ensures rows == []
    {
      rows := [];
    }
  }
}
