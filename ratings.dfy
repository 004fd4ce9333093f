/** Skill self-ratings and their manager review (Backend/src/controllers/ratingController.js).
    An employee rates a skill from 1 to 5; the record for that (employee, skill) pair is
    created or overwritten and goes back to PENDING. The employee's direct manager then
    approves or rejects it, optionally with a rating of their own. */
module Ratings {
  import opened Common
  import opened Store

  // ---------------------------------------------------------------------------
  // selfRateSkill

  /** Line 9: a truthy skill id and a truthy rating between 1 and 5. */
  predicate ValidSelfRating(skillId: Option<int>, selfRating: Option<int>) {
    Truthy(skillId) && Truthy(selfRating) && 1 <= selfRating.value <= 5
  }

  /** The error statuses of lines 9-29 in their order, or None when the upsert runs. A
      token without `userId` makes the employee lookup throw (500). */
  function SelfRateCheck(userId: Option<int>, skillId: Option<int>, selfRating: Option<int>,
                         employees: seq<Employee>, skills: seq<Skill>): (r: Option<int>)
    ensures r == Some(400) <==> !ValidSelfRating(skillId, selfRating)
    ensures r.None? <==>
              ValidSelfRating(skillId, selfRating) && userId.Some?
              && EmployeeOfUser(employees, userId.value).Some? && FindSkill(skills, skillId.value).Some?
    ensures r == Some(404) <==>
              ValidSelfRating(skillId, selfRating) && userId.Some?
              && (EmployeeOfUser(employees, userId.value).None? || FindSkill(skills, skillId.value).None?)
  {
    if !ValidSelfRating(skillId, selfRating) then Some(400)
    else if userId.None? then Some(500)
    else if EmployeeOfUser(employees, userId.value).None? then Some(404)
    else if FindSkill(skills, skillId.value).None? then Some(404)
    else None
  }

  /** `selfComments || ''`. */
  function CommentText(c: Option<string>): (r: string)
    ensures Present(c) ==> r == c.value
    ensures !Present(c) ==> r == ""
  {
    if Present(c) then c.value else ""
  }

  predicate SameKey(x: EmployeeSkill, employeeId: int, skillId: int) {
    x.employeeId == employeeId && x.skillId == skillId
  }

  /** Position of the record with the upsert key, if any. */
  function RatingIndex(rows: seq<EmployeeSkill>, employeeId: int, skillId: int): (r: Option<nat>)
    ensures r.Some? ==> r.value < |rows| && SameKey(rows[r.value], employeeId, skillId)
    ensures r.None? <==> !RatingExists(rows, employeeId, skillId)
  {
    FirstIndex(rows, (x: EmployeeSkill) => SameKey(x, employeeId, skillId))
  }

  /** The `create` branch of the upsert: the other fields take their defaults. */
  function NewRating(id: int, employeeId: int, skillId: int, rating: int, comments: string): EmployeeSkill {
    EmployeeSkill(id, employeeId, skillId, None, Pending, Some(rating), Some(comments), Pending, None, None, None, None)
  }

  /** The `upsert` of lines 32-49 on the rows of the table. */
  function Upsert(rows: seq<EmployeeSkill>, nextId: int, employeeId: int, skillId: int, rating: int, comments: string)
    : (r: seq<EmployeeSkill>)
    ensures RatingExists(rows, employeeId, skillId) ==> |r| == |rows|
    ensures !RatingExists(rows, employeeId, skillId) ==> r == rows + [NewRating(nextId, employeeId, skillId, rating, comments)]
    ensures exists i :: 0 <= i < |r| && SameKey(r[i], employeeId, skillId)
              && r[i].selfRating == Some(rating) && r[i].selfComments == Some(comments) && r[i].managerStatus == Pending
    ensures forall x :: x in rows && !SameKey(x, employeeId, skillId) ==> x in r
    ensures forall x :: x in r && !SameKey(x, employeeId, skillId) ==> x in rows
  {
    match RatingIndex(rows, employeeId, skillId)
    case None =>
      var r := rows + [NewRating(nextId, employeeId, skillId, rating, comments)];
      assert r[|rows|] == NewRating(nextId, employeeId, skillId, rating, comments);
      r
    case Some(k) =>
      var r := rows[k := rows[k].(selfRating := Some(rating), selfComments := Some(comments), managerStatus := Pending)];
      assert SameKey(r[k], employeeId, skillId) && r[k].selfRating == Some(rating);
      assert forall x :: x in rows && !SameKey(x, employeeId, skillId) ==> x in r by {
        forall x | x in rows && !SameKey(x, employeeId, skillId)
          ensures x in r
        {
          var i :| 0 <= i < |rows| && rows[i] == x;
          assert r[i] == x;
        }
      }
      assert forall x :: x in r && !SameKey(x, employeeId, skillId) ==> x in rows by {
        forall x | x in r && !SameKey(x, employeeId, skillId)
          ensures x in rows
        {
          var i :| 0 <= i < |r| && r[i] == x;
          assert rows[i] == x;
        }
      }
      r
  }

  /** The id counter after the upsert: it advances only when a record is created. */
  function UpsertNextId(rows: seq<EmployeeSkill>, nextId: int, employeeId: int, skillId: int): (r: int)
    ensures r == nextId || r == nextId + 1
  {
    if RatingExists(rows, employeeId, skillId) then nextId else nextId + 1
  }

  /** The upsert keeps one record per (employee, skill) and fresh ids. */
  lemma UpsertKeepsValid(rows: seq<EmployeeSkill>, nextId: int, employeeId: int, skillId: int, rating: int, comments: string)
    requires EmployeeSkillsValid(rows, nextId)
    ensures EmployeeSkillsValid(Upsert(rows, nextId, employeeId, skillId, rating, comments),
                                UpsertNextId(rows, nextId, employeeId, skillId))
  {
    var r := Upsert(rows, nextId, employeeId, skillId, rating, comments);
    match RatingIndex(rows, employeeId, skillId)
    case None =>
      forall i, j | 0 <= i < j < |r|
        ensures r[i].id != r[j].id && (r[i].employeeId != r[j].employeeId || r[i].skillId != r[j].skillId)
      {
        if j == |rows| {
          assert r[i] == rows[i];
        }
      }
    case Some(k) =>
      assert forall i :: 0 <= i < |r| ==>
        (r[i].id == rows[i].id && r[i].employeeId == rows[i].employeeId && r[i].skillId == rows[i].skillId);
  }

  /** On a valid table the upserted record is the only one for its (employee, skill) pair:
      rating a skill twice never duplicates it, and the record holds the latest rating. */
  lemma UpsertLeavesOneRecord(rows: seq<EmployeeSkill>, nextId: int, employeeId: int, skillId: int, rating: int, comments: string)
    requires EmployeeSkillsValid(rows, nextId)
    ensures var r := Upsert(rows, nextId, employeeId, skillId, rating, comments);
      exists i :: 0 <= i < |r| && SameKey(r[i], employeeId, skillId)
        && r[i].selfRating == Some(rating) && r[i].selfComments == Some(comments) && r[i].managerStatus == Pending
        && forall j :: 0 <= j < |r| && j != i ==> !SameKey(r[j], employeeId, skillId)
  {
    var r := Upsert(rows, nextId, employeeId, skillId, rating, comments);
    UpsertKeepsValid(rows, nextId, employeeId, skillId, rating, comments);
    var i :| 0 <= i < |r| && SameKey(r[i], employeeId, skillId)
        && r[i].selfRating == Some(rating) && r[i].selfComments == Some(comments) && r[i].managerStatus == Pending;
    forall j | 0 <= j < |r| && j != i
      ensures !SameKey(r[j], employeeId, skillId)
    {
      if j < i {
        assert r[j].employeeId != r[i].employeeId || r[j].skillId != r[i].skillId;
      } else {
        assert r[i].employeeId != r[j].employeeId || r[i].skillId != r[j].skillId;
      }
    }
  }

  /** Re-rating an already rated skill touches only that record's self-rating, comments
      and manager status; the manager's earlier rating and comments stay. */
  lemma RerateKeepsTheRest(rows: seq<EmployeeSkill>, nextId: int, employeeId: int, skillId: int, rating: int, comments: string)
    requires RatingExists(rows, employeeId, skillId)
    ensures var k := RatingIndex(rows, employeeId, skillId).value;
      var r := Upsert(rows, nextId, employeeId, skillId, rating, comments);
      && (forall i :: 0 <= i < |rows| && i != k ==> r[i] == rows[i])
      && r[k].id == rows[k].id && r[k].level == rows[k].level && r[k].status == rows[k].status
      && r[k].managerRating == rows[k].managerRating && r[k].managerComments == rows[k].managerComments
      && r[k].managerApprovedAt == rows[k].managerApprovedAt && r[k].managerApprovedBy == rows[k].managerApprovedBy
  {
  }

  /** `selfRateSkill`. */
  method SelfRateSkill(user: Payload, skillId: Option<int>, selfRating: Option<int>, selfComments: Option<string>,
                       employees: seq<Employee>, skills: seq<Skill>, table: EmployeeSkillTable)
    returns (code: int)
    requires table.Valid()
    modifies table
    ensures table.Valid()
    ensures var check := SelfRateCheck(user.userId, skillId, selfRating, employees, skills);
      && (check.Some? ==> code == check.value && table.rows == old(table.rows) && table.nextId == old(table.nextId))
      && (check.None? ==>
            var employeeId := EmployeeOfUser(employees, user.userId.value).value.id;
            && code == 201
            && table.rows == Upsert(old(table.rows), old(table.nextId), employeeId, skillId.value, selfRating.value,
                                    CommentText(selfComments))
            && table.nextId == UpsertNextId(old(table.rows), old(table.nextId), employeeId, skillId.value))
  {
    var check := SelfRateCheck(user.userId, skillId, selfRating, employees, skills);
    if check.Some? {
      return check.value;
    }
    var employeeId := EmployeeOfUser(employees, user.userId.value).value.id;
    UpsertKeepsValid(table.rows, table.nextId, employeeId, skillId.value, selfRating.value, CommentText(selfComments));
    var rows := Upsert(table.rows, table.nextId, employeeId, skillId.value, selfRating.value, CommentText(selfComments));
    table.nextId := UpsertNextId(table.rows, table.nextId, employeeId, skillId.value);
    table.rows := rows;
    code := 201;
  }

  // ---------------------------------------------------------------------------
  // managerApproveSkill

  /** The body checks of lines 139-148: a known decision, and a rating in 1-5 when an
      approval carries a truthy one. */
  predicate DecisionInputValid(status: Option<string>, rating: Option<int>) {
    && status.Some? && ParseDecision(status.value).Some?
    && (status.value == "APPROVED" && Truthy(rating) ==> 1 <= rating.value <= 5)
  }

  /** The error statuses of lines 139-169 in their order, or None when the update runs.
      A record whose employee row is missing makes the handler throw (500). */
  function DecisionCheck(rows: seq<EmployeeSkill>, employees: seq<Employee>, userId: Option<int>, id: int,
                         status: Option<string>, rating: Option<int>): (r: Option<int>)
    ensures status.None? || ParseDecision(status.value).None? ==> r == Some(400)
    ensures status == Some("APPROVED") && Truthy(rating) && !(1 <= rating.value <= 5) ==> r == Some(400)
    ensures r == Some(400) <==> !DecisionInputValid(status, rating)
    ensures DecisionInputValid(status, rating) && IndexOfEmployeeSkill(rows, id).None? ==> r == Some(404)
    ensures (DecisionInputValid(status, rating) && IndexOfEmployeeSkill(rows, id).Some?
             && FindEmployee(employees, rows[IndexOfEmployeeSkill(rows, id).value].employeeId).None?) ==> r == Some(500)
    ensures r == Some(403) <==>
              && DecisionInputValid(status, rating) && IndexOfEmployeeSkill(rows, id).Some?
              && var owner := FindEmployee(employees, rows[IndexOfEmployeeSkill(rows, id).value].employeeId);
                 owner.Some? && (owner.value.managerId.None? || userId != owner.value.managerId)
    ensures r.None? <==>
              && DecisionInputValid(status, rating) && IndexOfEmployeeSkill(rows, id).Some?
              && var owner := FindEmployee(employees, rows[IndexOfEmployeeSkill(rows, id).value].employeeId);
                 owner.Some? && owner.value.managerId.Some? && userId == owner.value.managerId
  {
    if status.None? || ParseDecision(status.value).None? then Some(400)
    else if status.value == "APPROVED" && Truthy(rating) && (rating.value < 1 || rating.value > 5) then Some(400)
    else
      match IndexOfEmployeeSkill(rows, id)
      case None => Some(404)
      case Some(k) =>
        match FindEmployee(employees, rows[k].employeeId)
        case None => Some(500)
        case Some(owner) =>
          if owner.managerId.None? || userId != owner.managerId then Some(403) else None
  }

  /** The employee's own manager, deciding an existing record with a valid body, gets
      through: a rejection, or an approval with no rating or a rating in 1-5. */
  lemma OwnManagerCanDecide(rows: seq<EmployeeSkill>, nextId: int, employees: seq<Employee>, k: nat,
                            approve: bool, rating: Option<int>)
    requires EmployeeSkillsValid(rows, nextId) && k < |rows|
    requires FindEmployee(employees, rows[k].employeeId).Some?
    requires FindEmployee(employees, rows[k].employeeId).value.managerId.Some?
    requires approve && Truthy(rating) ==> 1 <= rating.value <= 5
    ensures DecisionCheck(rows, employees, FindEmployee(employees, rows[k].employeeId).value.managerId, rows[k].id,
                          Some(if approve then "APPROVED" else "REJECTED"), rating).None?
  {
    var found := IndexOfEmployeeSkill(rows, rows[k].id);
    assert found.Some?;
    assert rows[found.value].id == rows[k].id;
    assert DecisionInputValid(Some(if approve then "APPROVED" else "REJECTED"), rating);
  }

  /** The record after the update of lines 172-180. */
  function ManagerDecided(x: EmployeeSkill, status: Status, rating: Option<int>, comments: Option<string>,
                          now: int, approver: Option<int>): (r: EmployeeSkill)
    ensures r.managerStatus == status
    ensures Truthy(rating) ==> r.managerRating == rating
    ensures !Truthy(rating) ==> r.managerRating == x.selfRating
    ensures r.managerComments == Some(CommentText(comments))
    ensures r.managerApprovedAt == Some(now) && r.managerApprovedBy == approver
    ensures r.id == x.id && r.employeeId == x.employeeId && r.skillId == x.skillId && r.level == x.level
            && r.status == x.status && r.selfRating == x.selfRating && r.selfComments == x.selfComments
  {
    x.(managerStatus := status,
       managerRating := if Truthy(rating) then rating else x.selfRating,
       managerComments := Some(CommentText(comments)),
       managerApprovedAt := Some(now),
       managerApprovedBy := approver)
  }

  /** `managerApproveSkill`. */
  method ManagerApproveSkill(user: Payload, id: int, status: Option<string>, rating: Option<int>, comments: Option<string>,
                             now: int, employees: seq<Employee>, table: EmployeeSkillTable)
    returns (code: int)
    requires table.Valid()
    modifies table
    ensures table.Valid() && table.nextId == old(table.nextId)
    ensures var check := DecisionCheck(old(table.rows), employees, user.userId, id, status, rating);
      && (check.Some? ==> code == check.value && table.rows == old(table.rows))
      && (check.None? ==>
            var k := IndexOfEmployeeSkill(old(table.rows), id).value;
            && code == 200
            && table.rows == old(table.rows)[k := ManagerDecided(old(table.rows)[k], ParseDecision(status.value).value,
                                                                rating, comments, now, user.userId)])
  {
    var check := DecisionCheck(table.rows, employees, user.userId, id, status, rating);
    if check.Some? {
      return check.value;
    }
    var k := IndexOfEmployeeSkill(table.rows, id).value;
    var before := table.rows;
    table.rows := table.rows[k := ManagerDecided(table.rows[k], ParseDecision(status.value).value, rating, comments, now, user.userId)];
    assert forall i :: 0 <= i < |table.rows| ==>
      (table.rows[i].id == before[i].id && table.rows[i].employeeId == before[i].employeeId
       && table.rows[i].skillId == before[i].skillId);
    code := 200;
  }

  /** An approval that passes the checks stores a rating from 1 to 5 whenever the
      employee's own rating was one: the manager's rating if given, else the self-rating. */
  lemma ApprovedRatingInRange(rows: seq<EmployeeSkill>, employees: seq<Employee>, userId: Option<int>, id: int,
                              rating: Option<int>, comments: Option<string>, now: int)
    requires DecisionCheck(rows, employees, userId, id, Some("APPROVED"), rating).None?
    requires var x := rows[IndexOfEmployeeSkill(rows, id).value]; x.selfRating.Some? && 1 <= x.selfRating.value <= 5
    ensures var x := rows[IndexOfEmployeeSkill(rows, id).value];
      var r := ManagerDecided(x, Approved, rating, comments, now, userId);
      r.managerRating.Some? && 1 <= r.managerRating.value <= 5
  {
  }

  /** The range check applies to approvals only: a rejection carrying any non-zero rating
      passes the checks and stores that rating. */
  lemma RejectionStoresAnyRating(rows: seq<EmployeeSkill>, employees: seq<Employee>, userId: Option<int>, id: int, rating: int)
    requires rating != 0
    requires DecisionCheck(rows, employees, userId, id, Some("APPROVED"), None).None?
    ensures DecisionCheck(rows, employees, userId, id, Some("REJECTED"), Some(rating)).None?
  {
  }

  /** There is no PENDING check: the manager can decide an already decided record again. */
  lemma DecisionsCanBeRevised(rows: seq<EmployeeSkill>, employees: seq<Employee>, userId: Option<int>, id: int,
                              status: Option<string>, rating: Option<int>, comments: Option<string>, now: int)
    requires DecisionCheck(rows, employees, userId, id, status, rating).None?
    ensures var k := IndexOfEmployeeSkill(rows, id).value;
      var after := rows[k := ManagerDecided(rows[k], ParseDecision(status.value).value, rating, comments, now, userId)];
      DecisionCheck(after, employees, userId, id, status, rating).None?
  {
    var k := IndexOfEmployeeSkill(rows, id).value;
    var after := rows[k := ManagerDecided(rows[k], ParseDecision(status.value).value, rating, comments, now, userId)];
    assert forall i :: 0 <= i < |after| ==> (after[i].id == rows[i].id && after[i].employeeId == rows[i].employeeId);
    assert IndexOfEmployeeSkill(after, id) == Some(k);
  }

  // ---------------------------------------------------------------------------
  // getPendingApprovals and getTeamSkillRatings

  /** `employee.findMany({ where: { managerId: userId } })`; an absent `userId` drops the
      condition. */
  predicate ReportsTo(e: Employee, userId: Option<int>) {
    userId.None? || e.managerId == userId
  }

  function ReportsToUser(userId: Option<int>): Employee -> bool {
    (e: Employee) => ReportsTo(e, userId)
  }

  /** `subordinateIds`. */
  function SubordinateIds(employees: seq<Employee>, userId: Option<int>): (r: seq<int>)
    ensures forall x :: x in r <==> exists e :: e in employees && ReportsTo(e, userId) && e.id == x
  {
    var subs := Filter(employees, ReportsToUser(userId));
    var r := seq(|subs|, i requires 0 <= i < |subs| => subs[i].id);
    assert forall x :: x in r ==> exists e :: e in employees && ReportsTo(e, userId) && e.id == x by {
      forall x | x in r
        ensures exists e :: e in employees && ReportsTo(e, userId) && e.id == x
      {
        var i :| 0 <= i < |r| && r[i] == x;
        assert subs[i] in subs;
      }
    }
    assert forall x :: (exists e :: e in employees && ReportsTo(e, userId) && e.id == x) ==> x in r by {
      forall x | exists e :: e in employees && ReportsTo(e, userId) && e.id == x
        ensures x in r
      {
        var e :| e in employees && ReportsTo(e, userId) && e.id == x;
        assert e in subs;
        var i :| 0 <= i < |subs| && subs[i] == e;
        assert r[i] == x;
      }
    }
    r
  }

  function OfTeam(ids: seq<int>): EmployeeSkill -> bool {
    (x: EmployeeSkill) => x.employeeId in ids
  }

  function PendingOfTeam(ids: seq<int>): EmployeeSkill -> bool {
    (x: EmployeeSkill) => x.employeeId in ids && x.managerStatus == Pending
  }

  function IsPendingRating(x: EmployeeSkill): bool {
    x.managerStatus == Pending
  }

  /** `getTeamSkillRatings`: every record of the caller's direct reports (the database
      ordering is not modelled). */
  function TeamRatings(ratings: seq<EmployeeSkill>, employees: seq<Employee>, userId: Option<int>): (r: seq<EmployeeSkill>)
    ensures forall x :: x in r <==>
              x in ratings && exists e :: e in employees && ReportsTo(e, userId) && e.id == x.employeeId
  {
    Filter(ratings, OfTeam(SubordinateIds(employees, userId)))
  }

  /** `getPendingApprovals`: the PENDING records of the caller's direct reports. */
  function PendingApprovals(ratings: seq<EmployeeSkill>, employees: seq<Employee>, userId: Option<int>): (r: seq<EmployeeSkill>)
    ensures forall x :: x in r <==>
              x in ratings && x.managerStatus == Pending
              && exists e :: e in employees && ReportsTo(e, userId) && e.id == x.employeeId
  {
    Filter(ratings, PendingOfTeam(SubordinateIds(employees, userId)))
  }

  /** The pending list is exactly the PENDING part of the team list, in the same order. */
  lemma PendingIsPendingPartOfTeam(ratings: seq<EmployeeSkill>, employees: seq<Employee>, userId: Option<int>)
    ensures PendingApprovals(ratings, employees, userId) == Filter(TeamRatings(ratings, employees, userId), IsPendingRating)
  {
    var ids := SubordinateIds(employees, userId);
    FilterTwice(ratings, OfTeam(ids), IsPendingRating, PendingOfTeam(ids));
  }
}
