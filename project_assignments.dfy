/** Project assignments (Backend/src/controllers/projectController.js): HR selects
    employees for a project (`selectEmployees`), each selection waits as a PENDING request
    for the employee's manager, who approves or rejects it (`approveAssignment`). Also the
    candidate list that hides assigned employees (`getProjectCandidates`) and the pending
    count of the project overview (`getAllProjects`). */
module ProjectAssignments {
  import opened Common
  import opened Store

  // ---------------------------------------------------------------------------
  // selectEmployees

  /** An entry of the `errors` array. */
  datatype SelectError = NoManager(employeeId: int) | AlreadyAssigned(employeeId: int)

  /** The assignment table and the two result arrays while the loop runs. */
  datatype Selection = Selection(rows: seq<Assignment>, nextId: int, created: seq<Assignment>, errors: seq<SelectError>)

  /** `hrUserId`: `Number(req.user?.id ?? req.user?.userId)`; 0 and absent both fail the
      `!hrUserId` test. */
  function SelectingUser(user: Option<Payload>): (r: Option<int>)
    ensures r.Some? ==> r.value != 0 && user.Some? && ActingUserId(user.value) == r
    ensures r.None? ==> user.None? || !Truthy(ActingUserId(user.value))
  {
    if user.None? || !Truthy(ActingUserId(user.value)) then None else ActingUserId(user.value)
  }

  /** `employee.findMany({ where: { id: { in: employeeIds } } })`, in table order. */
  function IdIn(ids: seq<int>): Employee -> bool {
    (e: Employee) => e.id in ids
  }

  /** One iteration of the loop of lines 596-645. */
  function SelectStep(st: Selection, e: Employee, projectId: int, hrUserId: int): (r: Selection)
    ensures !Truthy(e.managerId) ==> r == st.(errors := st.errors + [NoManager(e.id)])
    ensures Truthy(e.managerId) && AssignmentExists(st.rows, projectId, e.id) ==>
              r == st.(errors := st.errors + [AlreadyAssigned(e.id)])
    ensures Truthy(e.managerId) && !AssignmentExists(st.rows, projectId, e.id) ==>
              var a := Assignment(st.nextId, projectId, e.id, e.managerId.value, hrUserId, Pending, None, None);
              r == Selection(st.rows + [a], st.nextId + 1, st.created + [a], st.errors)
  {
    if !Truthy(e.managerId) then st.(errors := st.errors + [NoManager(e.id)])
    else if AssignmentExists(st.rows, projectId, e.id) then st.(errors := st.errors + [AlreadyAssigned(e.id)])
    else
      var a := Assignment(st.nextId, projectId, e.id, e.managerId.value, hrUserId, Pending, None, None);
      Selection(st.rows + [a], st.nextId + 1, st.created + [a], st.errors)
  }

  /** The whole loop over the fetched employees, in order. */
  function SelectAll(st: Selection, es: seq<Employee>, projectId: int, hrUserId: int): Selection
    decreases |es|
  {
    if es == [] then st
    else SelectStep(SelectAll(st, es[..|es| - 1], projectId, hrUserId), es[|es| - 1], projectId, hrUserId)
  }

  /** The error statuses of lines 553-590, checked in this order, or None when the loop
      runs. */
  function SelectCheck(user: Option<Payload>, projectId: int, employeeIds: Option<seq<int>>,
                       projects: seq<Project>, employees: seq<Employee>): (r: Option<int>)
    ensures r.None? ==> SelectingUser(user).Some? && employeeIds.Some? && employeeIds.value != []
    ensures SelectingUser(user).None? ==> r == Some(401)
    ensures SelectingUser(user).Some? && (employeeIds.None? || employeeIds.value == []) ==> r == Some(400)
    ensures (SelectingUser(user).Some? && employeeIds.Some? && employeeIds.value != []
             && forall i :: 0 <= i < |projects| ==> projects[i].id != projectId) ==> r == Some(404)
    ensures r.None? <==>
              SelectingUser(user).Some? && employeeIds.Some? && employeeIds.value != []
              && (exists i :: 0 <= i < |projects| && projects[i].id == projectId)
              && |Filter(employees, IdIn(employeeIds.value))| == |employeeIds.value|
    ensures (SelectingUser(user).Some? && employeeIds.Some? && employeeIds.value != []
             && (exists i :: 0 <= i < |projects| && projects[i].id == projectId)
             && |Filter(employees, IdIn(employeeIds.value))| != |employeeIds.value|) ==> r == Some(400)
  {
    if SelectingUser(user).None? then Some(401)
    else if employeeIds.None? || employeeIds.value == [] then Some(400)
    else if Find(projects, (p: Project) => p.id == projectId).None? then Some(404)
    else if |Filter(employees, IdIn(employeeIds.value))| != |employeeIds.value| then Some(400)
    else None
  }

  /** The multiset of the keys of a list's elements. */
  function KeyBag<T>(xs: seq<T>, key: T -> int): (r: multiset<int>)
    ensures |r| == |xs|
  {
    if xs == [] then multiset{} else KeyBag(xs[..|xs| - 1], key) + multiset{key(xs[|xs| - 1])}
  }

  function AssignedEmployee(a: Assignment): int { a.employeeId }

  function RefusedEmployee(e: SelectError): int { e.employeeId }

  function EmployeeId(e: Employee): int { e.id }

  /** One step of the loop accounts for its employee exactly once. */
  lemma SelectStepAccounts(st: Selection, e: Employee, projectId: int, hrUserId: int)
    ensures var r := SelectStep(st, e, projectId, hrUserId);
      KeyBag(r.created, AssignedEmployee) + KeyBag(r.errors, RefusedEmployee)
        == KeyBag(st.created, AssignedEmployee) + KeyBag(st.errors, RefusedEmployee) + multiset{e.id}
  {
    var r := SelectStep(st, e, projectId, hrUserId);
    if !Truthy(e.managerId) || AssignmentExists(st.rows, projectId, e.id) {
      assert r.errors[..|r.errors| - 1] == st.errors;
    } else {
      assert r.created[..|r.created| - 1] == st.created;
    }
  }

  /** Every fetched employee ends up exactly once in the created assignments or in the
      errors. */
  lemma {:induction false} SelectionAccountsForEveryone(rows: seq<Assignment>, nextId: int, es: seq<Employee>, projectId: int, hrUserId: int)
    ensures var r := SelectAll(Selection(rows, nextId, [], []), es, projectId, hrUserId);
      KeyBag(r.created, AssignedEmployee) + KeyBag(r.errors, RefusedEmployee) == KeyBag(es, EmployeeId)
    decreases |es|
  {
    if es != [] {
      var prev := SelectAll(Selection(rows, nextId, [], []), es[..|es| - 1], projectId, hrUserId);
      SelectionAccountsForEveryone(rows, nextId, es[..|es| - 1], projectId, hrUserId);
      SelectStepAccounts(prev, es[|es| - 1], projectId, hrUserId);
    }
  }

  /** The table grows by exactly the created assignments, which take consecutive ids. */
  lemma {:induction false} SelectionAppendsCreated(rows: seq<Assignment>, nextId: int, es: seq<Employee>, projectId: int, hrUserId: int)
    ensures var r := SelectAll(Selection(rows, nextId, [], []), es, projectId, hrUserId);
      r.rows == rows + r.created && r.nextId == nextId + |r.created|
    decreases |es|
  {
    if es != [] {
      SelectionAppendsCreated(rows, nextId, es[..|es| - 1], projectId, hrUserId);
    }
  }

  /** A created assignment belongs to a fetched employee who has a manager and was not
      already assigned to the project; it is PENDING, addressed to that employee's manager
      and records the selecting HR user. */
  lemma {:induction false} CreatedAssignmentsAreSound(rows: seq<Assignment>, nextId: int, es: seq<Employee>, projectId: int, hrUserId: int)
    ensures var r := SelectAll(Selection(rows, nextId, [], []), es, projectId, hrUserId);
      forall a :: a in r.created ==>
        && !AssignmentExists(rows, projectId, a.employeeId)
        && a.projectId == projectId && a.managerStatus == Pending && a.selectedBy == hrUserId
        && a.managerComments.None? && a.approvedAt.None?
        && exists e :: e in es && e.id == a.employeeId && Truthy(e.managerId) && a.managerId == e.managerId.value
    decreases |es|
  {
    if es != [] {
      var init := Selection(rows, nextId, [], []);
      var prev := SelectAll(init, es[..|es| - 1], projectId, hrUserId);
      CreatedAssignmentsAreSound(rows, nextId, es[..|es| - 1], projectId, hrUserId);
      SelectionAppendsCreated(rows, nextId, es[..|es| - 1], projectId, hrUserId);
      var e := es[|es| - 1];
      var r := SelectStep(prev, e, projectId, hrUserId);
      forall a | a in r.created
        ensures !AssignmentExists(rows, projectId, a.employeeId)
        ensures exists e' :: e' in es && e'.id == a.employeeId && Truthy(e'.managerId) && a.managerId == e'.managerId.value
      {
        if a in prev.created {
          var e' :| e' in es[..|es| - 1] && e'.id == a.employeeId && Truthy(e'.managerId) && a.managerId == e'.managerId.value;
          assert e' in es;
        } else {
          assert a.employeeId == e.id && e in es;
          assert forall i :: 0 <= i < |rows| ==> prev.rows[i] == rows[i];
        }
      }
    }
  }

  /** The loop keeps the table invariant: ids stay below the counter and distinct, and no
      (project, employee) pair is stored twice. */
  lemma {:induction false} SelectionKeepsTableValid(rows: seq<Assignment>, nextId: int, es: seq<Employee>, projectId: int, hrUserId: int)
    requires AssignmentsValid(rows, nextId)
    ensures var r := SelectAll(Selection(rows, nextId, [], []), es, projectId, hrUserId);
      AssignmentsValid(r.rows, r.nextId)
    decreases |es|
  {
    if es != [] {
      var prev := SelectAll(Selection(rows, nextId, [], []), es[..|es| - 1], projectId, hrUserId);
      SelectionKeepsTableValid(rows, nextId, es[..|es| - 1], projectId, hrUserId);
      var e := es[|es| - 1];
      if Truthy(e.managerId) && !AssignmentExists(prev.rows, projectId, e.id) {
        var a := Assignment(prev.nextId, projectId, e.id, e.managerId.value, hrUserId, Pending, None, None);
        var next := prev.rows + [a];
        forall i, j | 0 <= i < j < |next|
          ensures next[i].id != next[j].id
          ensures next[i].projectId != next[j].projectId || next[i].employeeId != next[j].employeeId
        {
          if j == |prev.rows| {
            assert next[i] == prev.rows[i];
          }
        }
      }
    }
  }

  /** The loop of lines 596-645 over the fetched employees. */
  method CreateAssignments(es: seq<Employee>, projectId: int, hrUserId: int, table: AssignmentTable)
    returns (created: seq<Assignment>, errors: seq<SelectError>)
    modifies table
    ensures var r := SelectAll(Selection(old(table.rows), old(table.nextId), [], []), es, projectId, hrUserId);
      && table.rows == r.rows && table.nextId == r.nextId && created == r.created && errors == r.errors
  {
    ghost var init := Selection(table.rows, table.nextId, [], []);
    created := [];
    errors := [];
    var i := 0;
    while i < |es|
      invariant 0 <= i <= |es|
      invariant SelectAll(init, es[..i], projectId, hrUserId) == Selection(table.rows, table.nextId, created, errors)
    {
      var e := es[i];
      assert es[..i + 1][..i] == es[..i];
      if !Truthy(e.managerId) {
        errors := errors + [NoManager(e.id)];
      } else if AssignmentExists(table.rows, projectId, e.id) {
        errors := errors + [AlreadyAssigned(e.id)];
      } else {
        var a := Assignment(table.nextId, projectId, e.id, e.managerId.value, hrUserId, Pending, None, None);
        table.rows := table.rows + [a];
        table.nextId := table.nextId + 1;
        created := created + [a];
      }
      i := i + 1;
    }
    assert es[..|es|] == es;
  }

  /** `selectEmployees`: a refusal changes nothing; otherwise the loop runs over the
      employees whose ids were requested and the answer is 201. */
  method SelectEmployees(user: Option<Payload>, projectId: int, employeeIds: Option<seq<int>>,
                         projects: seq<Project>, employees: seq<Employee>, table: AssignmentTable)
    returns (code: int, created: seq<Assignment>, errors: seq<SelectError>)
    requires table.Valid()
    modifies table
    ensures table.Valid()
    ensures SelectCheck(user, projectId, employeeIds, projects, employees).Some? ==>
              code == SelectCheck(user, projectId, employeeIds, projects, employees).value
              && table.rows == old(table.rows) && table.nextId == old(table.nextId) && created == [] && errors == []
    ensures SelectCheck(user, projectId, employeeIds, projects, employees).None? ==>
              var r := SelectAll(Selection(old(table.rows), old(table.nextId), [], []),
                                 Filter(employees, IdIn(employeeIds.value)), projectId, SelectingUser(user).value);
              && code == 201
              && table.rows == r.rows && table.nextId == r.nextId && created == r.created && errors == r.errors
  {
    var check := SelectCheck(user, projectId, employeeIds, projects, employees);
    if check.Some? {
      return check.value, [], [];
    }
    var fetched := Filter(employees, IdIn(employeeIds.value));
    SelectionKeepsTableValid(table.rows, table.nextId, fetched, projectId, SelectingUser(user).value);
    created, errors := CreateAssignments(fetched, projectId, SelectingUser(user).value, table);
    code := 201;
  }

  /** Repeating an id in the request makes the counts differ, so nothing is created. */
  lemma DuplicateIdsAreRejected(user: Option<Payload>, projectId: int, employeeIds: seq<int>,
                                projects: seq<Project>, employees: seq<Employee>, i: nat, j: nat)
    requires SelectingUser(user).Some?
    requires forall a, b :: 0 <= a < b < |employees| ==> employees[a].id != employees[b].id
    requires i < j < |employeeIds| && employeeIds[i] == employeeIds[j]
    ensures SelectCheck(user, projectId, Some(employeeIds), projects, employees).Some?
  {
    var fetched := Filter(employees, IdIn(employeeIds));
    FilterIsSubseq(employees, IdIn(employeeIds));
    var ids := set e | e in fetched :: e.id;
    DistinctIdsCount(fetched, employees);
    assert ids <= set k | k in employeeIds;
    RemoveDuplicateShrinks(employeeIds, i, j);
    SubsetCardinality(ids, set k | k in employeeIds);
  }

  /** The ids of a subsequence of rows with distinct ids are as many as its rows. */
  lemma DistinctIdsCount(fetched: seq<Employee>, employees: seq<Employee>)
    requires SubseqOf(fetched, employees)
    requires forall a, b :: 0 <= a < b < |employees| ==> employees[a].id != employees[b].id
    ensures |set e | e in fetched :: e.id| == |fetched|
  {
    SubseqIdsDistinct(fetched, employees);
    IdsCardinality(fetched);
  }

  lemma {:induction false} SubseqIdsDistinct(fetched: seq<Employee>, employees: seq<Employee>)
    requires SubseqOf(fetched, employees)
    requires forall a, b :: 0 <= a < b < |employees| ==> employees[a].id != employees[b].id
    ensures forall a, b :: 0 <= a < b < |fetched| ==> fetched[a].id != fetched[b].id
    decreases |employees|
  {
    if fetched != [] {
      if employees[0] == fetched[0] && SubseqOf(fetched[1..], employees[1..]) {
        SubseqIdsDistinct(fetched[1..], employees[1..]);
        SubseqMembers(fetched[1..], employees[1..]);
        forall b | 0 < b < |fetched|
          ensures fetched[0].id != fetched[b].id
        {
          assert fetched[1..][b - 1] == fetched[b];
          var k :| 0 <= k < |employees[1..]| && employees[1..][k] == fetched[b];
          assert employees[k + 1] == fetched[b];
        }
        forall a, b | 0 < a < b < |fetched|
          ensures fetched[a].id != fetched[b].id
        {
          assert fetched[1..][a - 1] == fetched[a] && fetched[1..][b - 1] == fetched[b];
        }
      } else {
        SubseqIdsDistinct(fetched, employees[1..]);
      }
    }
  }

  lemma {:induction false} SubseqMembers<T>(a: seq<T>, b: seq<T>)
    requires SubseqOf(a, b)
    ensures forall i :: 0 <= i < |a| ==> exists k :: 0 <= k < |b| && b[k] == a[i]
    decreases |b|
  {
    if a != [] {
      if b[0] == a[0] && SubseqOf(a[1..], b[1..]) {
        SubseqMembers(a[1..], b[1..]);
        forall i | 0 < i < |a|
          ensures exists k :: 0 <= k < |b| && b[k] == a[i]
        {
          assert a[1..][i - 1] == a[i];
          var k :| 0 <= k < |b[1..]| && b[1..][k] == a[i];
          assert b[k + 1] == a[i];
        }
        assert b[0] == a[0];
      } else {
        SubseqMembers(a, b[1..]);
        forall i | 0 <= i < |a|
          ensures exists k :: 0 <= k < |b| && b[k] == a[i]
        {
          var k :| 0 <= k < |b[1..]| && b[1..][k] == a[i];
          assert b[k + 1] == a[i];
        }
      }
    }
  }

  lemma {:induction false} IdsCardinality(es: seq<Employee>)
    requires forall a, b :: 0 <= a < b < |es| ==> es[a].id != es[b].id
    ensures |set e | e in es :: e.id| == |es|
  {
    if es != [] {
      var last := es[|es| - 1];
      var front := es[..|es| - 1];
      IdsCardinality(front);
      assert (set e | e in es :: e.id) == (set e | e in front :: e.id) + {last.id};
      forall e | e in front
        ensures e.id != last.id
      {
        var k :| 0 <= k < |front| && front[k] == e;
        assert es[k] == e;
      }
    }
  }

  /** A sequence with a repeated element has fewer distinct elements than its length. */
  lemma RemoveDuplicateShrinks(s: seq<int>, i: nat, j: nat)
    requires i < j < |s| && s[i] == s[j]
    ensures |set k | k in s| < |s|
  {
    var t := s[..j] + s[j + 1..];
    assert (set k | k in s) == (set k | k in t) by {
      forall k | k in s
        ensures k in t
      {
        var p :| 0 <= p < |s| && s[p] == k;
        if p < j {
          assert t[p] == k;
        } else if p == j {
          assert t[i] == k;
        } else {
          assert t[p - 1] == k;
        }
      }
    }
    SetSizeIsDistinctLength(t);
  }


  // ---------------------------------------------------------------------------
  // approveAssignment

  /** The error statuses of lines 730-765 in their order, for a caller identified as
      `caller`, or None when the update goes ahead. */
  function ApprovalCheck(rows: seq<Assignment>, caller: Option<int>, assignmentId: int, action: Option<string>): (r: Option<int>)
    ensures action != Some("APPROVE") && action != Some("REJECT") ==> r == Some(400)
    ensures (action == Some("APPROVE") || action == Some("REJECT")) && IndexOfAssignment(rows, assignmentId).None? ==>
              r == Some(404)
    ensures r.None? <==>
              (action == Some("APPROVE") || action == Some("REJECT"))
              && IndexOfAssignment(rows, assignmentId).Some?
              && caller == Some(rows[IndexOfAssignment(rows, assignmentId).value].managerId)
              && rows[IndexOfAssignment(rows, assignmentId).value].managerStatus == Pending
    ensures r == Some(403) <==>
              (action == Some("APPROVE") || action == Some("REJECT"))
              && IndexOfAssignment(rows, assignmentId).Some?
              && caller != Some(rows[IndexOfAssignment(rows, assignmentId).value].managerId)
    ensures ((action == Some("APPROVE") || action == Some("REJECT"))
             && IndexOfAssignment(rows, assignmentId).Some?
             && caller == Some(rows[IndexOfAssignment(rows, assignmentId).value].managerId)
             && rows[IndexOfAssignment(rows, assignmentId).value].managerStatus != Pending) ==> r == Some(400)
  {
    if action != Some("APPROVE") && action != Some("REJECT") then Some(400)
    else
      match IndexOfAssignment(rows, assignmentId)
      case None => Some(404)
      case Some(k) =>
        if caller != Some(rows[k].managerId) then Some(403)
        else if rows[k].managerStatus != Pending then Some(400)
        else None
  }

  /** The record after the update of lines 768-775: APPROVED iff the action is APPROVE,
      comments stored when given (an absent `comments` leaves the field as it was), and the
      decision time stamped. */
  function Decided(a: Assignment, approve: bool, comments: Option<string>, now: int): (r: Assignment)
    ensures r.managerStatus == (if approve then Approved else Rejected)
    ensures comments.Some? ==> r.managerComments == comments
    ensures comments.None? ==> r.managerComments == a.managerComments
    ensures r.approvedAt == Some(now)
    ensures r.(managerStatus := a.managerStatus, managerComments := a.managerComments, approvedAt := a.approvedAt) == a
  {
    a.(managerStatus := if approve then Approved else Rejected,
       managerComments := if comments.Some? then comments else a.managerComments,
       approvedAt := Some(now))
  }

  /** The caller as `approveAssignment` reads it: `req.user.id`. */
  function CallerAsWritten(user: Payload): (r: Option<int>)
    ensures r == user.id
  {
    user.id
  }

  /** A token signed at login or registration carries `userId` and `role` only. With the
      caller read as written, the manager of an existing assignment is refused with 403
      whatever the assignment, so no assignment can ever be decided. */
  lemma SignedTokenIsAlwaysForbidden(rows: seq<Assignment>, userId: int, role: string, assignmentId: int, action: string)
    requires action == "APPROVE" || action == "REJECT"
    requires IndexOfAssignment(rows, assignmentId).Some?
    ensures ApprovalCheck(rows, CallerAsWritten(Payload(None, Some(userId), role, None)), assignmentId, Some(action)) == Some(403)
  {
  }

  /** With the intended caller, the employee's manager can decide a PENDING assignment
      using the token issued at login. */
  lemma ManagerCanDecide(rows: seq<Assignment>, role: string, assignmentId: int, action: string)
    requires action == "APPROVE" || action == "REJECT"
    requires IndexOfAssignment(rows, assignmentId).Some?
    requires rows[IndexOfAssignment(rows, assignmentId).value].managerStatus == Pending
    ensures var manager := rows[IndexOfAssignment(rows, assignmentId).value].managerId;
      ApprovalCheck(rows, ActingUserId(Payload(None, Some(manager), role, None)), assignmentId, Some(action)).None?
  {
  }

  /** `approveAssignment` with the intended caller: a refusal leaves the table unchanged;
      otherwise exactly the addressed record is decided. */
  method ApproveAssignment(user: Payload, assignmentId: int, action: Option<string>, comments: Option<string>,
                           now: int, table: AssignmentTable)
    returns (code: int)
    requires table.Valid()
    modifies table
    ensures table.Valid()
    ensures table.nextId == old(table.nextId)
    ensures var check := ApprovalCheck(old(table.rows), ActingUserId(user), assignmentId, action);
      && (check.Some? ==> code == check.value && table.rows == old(table.rows))
      && (check.None? ==>
            var k := IndexOfAssignment(old(table.rows), assignmentId).value;
            code == 200
            && table.rows == old(table.rows)[k := Decided(old(table.rows)[k], action == Some("APPROVE"), comments, now)])
  {
    var check := ApprovalCheck(table.rows, ActingUserId(user), assignmentId, action);
    if check.Some? {
      return check.value;
    }
    var k := IndexOfAssignment(table.rows, assignmentId).value;
    var old_rows := table.rows;
    table.rows := table.rows[k := Decided(table.rows[k], action == Some("APPROVE"), comments, now)];
    assert forall i :: 0 <= i < |table.rows| ==>
      (table.rows[i].id == old_rows[i].id
       && table.rows[i].projectId == old_rows[i].projectId && table.rows[i].employeeId == old_rows[i].employeeId);
    code := 200;
  }

  /** A decided assignment cannot be decided again: a second call answers 400 and changes
      nothing, whoever calls. */
  lemma DecisionIsFinal(rows: seq<Assignment>, caller: Option<int>, assignmentId: int, action: Option<string>,
                        comments: Option<string>, now: int, approve: bool)
    requires (action == Some("APPROVE") || action == Some("REJECT"))
    requires IndexOfAssignment(rows, assignmentId).Some?
    ensures var k := IndexOfAssignment(rows, assignmentId).value;
      var after := rows[k := Decided(rows[k], approve, comments, now)];
      ApprovalCheck(after, caller, assignmentId, action) in {Some(400), Some(403)}
  {
    var k := IndexOfAssignment(rows, assignmentId).value;
    var after := rows[k := Decided(rows[k], approve, comments, now)];
    assert forall i :: 0 <= i < |after| ==> after[i].id == rows[i].id;
    assert IndexOfAssignment(after, assignmentId) == Some(k);
  }

  // ---------------------------------------------------------------------------
  // getProjectCandidates and getAllProjects

  function OfProjectAssignment(projectId: int): Assignment -> bool {
    (a: Assignment) => a.projectId == projectId
  }

  /** `assignments.map(a => a.employeeId)` for the project. */
  function AssignedEmployees(assignments: seq<Assignment>, projectId: int): (r: seq<int>)
    ensures |r| == |Filter(assignments, OfProjectAssignment(projectId))|
    ensures forall x :: x in r <==> AssignmentExists(assignments, projectId, x)
  {
    var mine := Filter(assignments, OfProjectAssignment(projectId));
    var r := seq(|mine|, i requires 0 <= i < |mine| => mine[i].employeeId);
    assert forall x :: x in r ==> AssignmentExists(assignments, projectId, x) by {
      forall x | x in r
        ensures AssignmentExists(assignments, projectId, x)
      {
        var i :| 0 <= i < |r| && r[i] == x;
        assert mine[i] in mine;
        var k :| 0 <= k < |assignments| && assignments[k] == mine[i];
      }
    }
    assert forall x :: AssignmentExists(assignments, projectId, x) ==> x in r by {
      forall x | AssignmentExists(assignments, projectId, x)
        ensures x in r
      {
        var k :| 0 <= k < |assignments| && assignments[k].projectId == projectId && assignments[k].employeeId == x;
        assert assignments[k] in mine;
        var i :| 0 <= i < |mine| && mine[i] == assignments[k];
        assert r[i] == x;
      }
    }
    r
  }

  function Unassigned(projectId: int, taken: seq<int>): CandidateMatch -> bool {
    (c: CandidateMatch) => c.projectId == projectId && c.employeeId !in taken
  }

  /** The candidate rows of lines 470-475: the project's match rows whose employee has no
      assignment to the project, in table order (the database ordering by skill index is
      not modelled). */
  function ProjectCandidates(matches: seq<CandidateMatch>, assignments: seq<Assignment>, projectId: int): (r: seq<CandidateMatch>)
    ensures forall c :: c in r <==>
              c in matches && c.projectId == projectId && !AssignmentExists(assignments, projectId, c.employeeId)
  {
    Filter(matches, Unassigned(projectId, AssignedEmployees(assignments, projectId)))
  }

  /** The candidate list is part of the match table, in order, and leaves out exactly the
      employees already assigned to the project. */
  lemma CandidatesExcludeAssigned(matches: seq<CandidateMatch>, assignments: seq<Assignment>, projectId: int)
    ensures SubseqOf(ProjectCandidates(matches, assignments, projectId), matches)
    ensures forall a :: a in assignments && a.projectId == projectId ==>
              forall c :: c in ProjectCandidates(matches, assignments, projectId) ==> c.employeeId != a.employeeId
  {
    FilterIsSubseq(matches, Unassigned(projectId, AssignedEmployees(assignments, projectId)));
    forall a, c | a in assignments && a.projectId == projectId && c in ProjectCandidates(matches, assignments, projectId)
      ensures c.employeeId != a.employeeId
    {
      var k :| 0 <= k < |assignments| && assignments[k] == a;
    }
  }

  function ShownAssignment(projectId: int): Assignment -> bool {
    (a: Assignment) => a.projectId == projectId && (a.managerStatus == Pending || a.managerStatus == Approved)
  }

  function IsPending(a: Assignment): bool {
    a.managerStatus == Pending
  }

  function PendingOf(projectId: int): Assignment -> bool {
    (a: Assignment) => a.projectId == projectId && a.managerStatus == Pending
  }

  /** `pendingApprovals` of a project in the overview (lines 813-816 and 862-864): the
      PENDING entries of its listed (PENDING or APPROVED) assignments. */
  function PendingApprovals(assignments: seq<Assignment>, projectId: int): (r: nat)
    ensures r <= |Filter(assignments, ShownAssignment(projectId))|
  {
    |Filter(Filter(assignments, ShownAssignment(projectId)), IsPending)|
  }

  /** The pre-filter on PENDING/APPROVED loses nothing: the count is the number of
      PENDING assignments of the project, and it never exceeds `assignmentsCount`. */
  lemma PendingApprovalsCountsPending(assignments: seq<Assignment>, projectId: int)
    ensures PendingApprovals(assignments, projectId) == |Filter(assignments, PendingOf(projectId))|
    ensures PendingApprovals(assignments, projectId) <= |Filter(assignments, OfProjectAssignment(projectId))|
  {
    FilterTwice(assignments, ShownAssignment(projectId), IsPending, PendingOf(projectId));
    FilterTwice(assignments, OfProjectAssignment(projectId), IsPending, PendingOf(projectId));
  }
}
