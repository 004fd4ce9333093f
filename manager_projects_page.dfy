/** The manager's project-request page (frontend/src/app/manager/projects/page.tsx): the
    mapping of the server's request rows into assignments, the review dialog, the local
    update after a decision and the pending count. The API calls are parameters. */
module ManagerProjectsPage {
  import opened Common
  import opened Ui

  /** One row of the `/projects/my/requests` response. */
  datatype RequestRow = RequestRow(
    assignmentId: int, projectId: int, status: string, requestedAt: string,
    projectName: string, projectDescription: string,
    employeeId: int, employeeName: string, position: Option<string>)

  /** An assignment as the page holds it. */
  datatype Assignment = Assignment(
    id: int, projectId: int, employeeId: int, status: string, createdAt: string,
    projectName: string, projectDescription: string, projectStatus: string,
    firstName: string, lastName: string, position: Option<string>,
    managerComments: Option<string>)

  /** The two choices of the review dialog. */
  datatype Verdict = Approve | Reject

  function IsSpaceChar(c: char): bool {
    c == ' '
  }

  /** `name.split(' ')[0] || ''` and `name.split(' ').slice(1).join(' ') || ''`: the text
      before the first space, and everything after it. Without a space the whole name is
      the first name and the last name is empty; with one, the two parts give the name
      back. */
  function SplitName(name: string): (r: (string, string))
    ensures ' ' !in r.0
    ensures ' ' !in name ==> r == (name, "")
    ensures ' ' in name ==> r.0 + " " + r.1 == name
  {
    var first := TakeUntil(name, IsSpaceChar);
    assert ' ' !in first by {
      forall i | 0 <= i < |first| ensures first[i] != ' ' {
        assert !IsSpaceChar(first[i]);
      }
    }
    if |first| == |name| then
      assert first == name;
      (first, "")
    else
      assert name[|first|] == ' ';
      (first, name[|first| + 1..])
  }

  /** The mapping of one row (lines 77-95): the assignment's id is the row's
      `assignmentId`, the project status shows the assignment status, and no manager
      comment is held yet. */
  function MapRow(a: RequestRow): (r: Assignment)
    ensures r.id == a.assignmentId && r.employeeId == a.employeeId && r.status == a.status
    ensures r.projectStatus == a.status && r.createdAt == a.requestedAt && r.managerComments.None?
    ensures r.firstName + (if ' ' in a.employeeName then " " else "") + r.lastName == a.employeeName
  {
    var (first, last) := SplitName(a.employeeName);
    Assignment(a.assignmentId, a.projectId, a.employeeId, a.status, a.requestedAt,
               a.projectName, a.projectDescription, a.status, first, last, a.position, None)
  }

  datatype State = State(
    assignments: seq<Assignment>, error: Option<string>, selected: Option<Assignment>,
    comments: string, processing: bool, loading: bool)

  /** `loadProjectRequests` (lines 70-106). The reply carries the `requests` field when it
      is an array and None otherwise; a missing array or a failed call leaves the list
      empty, and the failure's message is the error. The mapping keeps length and order. */
  function LoadRequests(st: State, reply: Reply<Option<seq<RequestRow>>>): (r: State)
    ensures !r.loading
    ensures reply.Replied? && reply.value.Some? ==>
              |r.assignments| == |reply.value.value|
              && (forall i :: 0 <= i < |r.assignments| ==> r.assignments[i] == MapRow(reply.value.value[i]))
              && r.error == st.error
    ensures reply.Replied? && reply.value.None? ==> r.assignments == [] && r.error == st.error
    ensures reply.Failed? ==> r.assignments == [] && r.error == Some(reply.message)
    ensures r.selected == st.selected && r.comments == st.comments && r.processing == st.processing
  {
    match reply
    case Failed(message) => st.(error := Some(message), assignments := [], loading := false)
    case Replied(None) => st.(assignments := [], loading := false)
    case Replied(Some(rows)) =>
      st.(assignments := seq(|rows|, i requires 0 <= i < |rows| => MapRow(rows[i])), loading := false)
  }

  /** `openReviewDialog` (lines 108-112). */
  function OpenReview(st: State, a: Assignment): (r: State)
    ensures r.selected == Some(a) && r.comments == "" && r.error.None?
    ensures r.assignments == st.assignments && r.processing == st.processing && r.loading == st.loading
  {
    st.(selected := Some(a), comments := "", error := None)
  }

  function VerdictStatus(v: Verdict): string {
    match v
    case Approve => "APPROVED"
    case Reject => "REJECTED"
  }

  /** The action sent for the chosen status (line 122). */
  function Action(v: Verdict): (r: string)
    ensures r == "APPROVE" <==> VerdictStatus(v) == "APPROVED"
    ensures r == "REJECT" <==> VerdictStatus(v) == "REJECTED"
  {
    match v
    case Approve => "APPROVE"
    case Reject => "REJECT"
  }

  /** `assignments.map(a => a.id === id ? { ...a, status, managerComments: comments } : a)`. */
  function Decide(assignments: seq<Assignment>, id: int, status: string, comments: string): (r: seq<Assignment>)
    ensures |r| == |assignments|
    ensures forall i :: 0 <= i < |r| && assignments[i].id != id ==> r[i] == assignments[i]
    ensures forall i :: 0 <= i < |r| && assignments[i].id == id ==>
              r[i] == assignments[i].(status := status, managerComments := Some(comments))
  {
    if assignments == [] then []
    else
      var a := assignments[0];
      [if a.id == id then a.(status := status, managerComments := Some(comments)) else a]
      + Decide(assignments[1..], id, status, comments)
  }

  /** `handleApproval` (lines 114-138): nothing without a selection. Otherwise the
      selected id, the action and the comments are sent; on success the assignments with
      that id take the status and the comments and the selection is cleared, and on
      failure only the error changes. */
  function HandleApproval(st: State, v: Verdict, result: CallResult): (r: (State, Option<(int, string, string)>))
    ensures st.selected.None? ==> r == (st, None)
    ensures st.selected.Some? ==> r.1 == Some((st.selected.value.id, Action(v), st.comments)) && !r.0.processing
    ensures st.selected.Some? && result.Succeeded? ==>
              r.0.assignments == Decide(st.assignments, st.selected.value.id, VerdictStatus(v), st.comments)
              && r.0.selected.None? && r.0.error.None?
    ensures st.selected.Some? && result.CallFailed? ==>
              r.0 == st.(error := Some(result.message), processing := false)
  {
    match st.selected
    case None => (st, None)
    case Some(a) =>
      var sent := Some((a.id, Action(v), st.comments));
      match result
      case Succeeded =>
        (st.(assignments := Decide(st.assignments, a.id, VerdictStatus(v), st.comments), selected := None,
             error := None, processing := false), sent)
      case CallFailed(message) => (st.(error := Some(message), processing := false), sent)
  }

  function IsPending(a: Assignment): bool {
    a.status == "PENDING"
  }

  /** `pendingCount` (line 153). */
  function PendingCount(assignments: seq<Assignment>): (r: nat)
    ensures r <= |assignments|
    ensures r == |Filter(assignments, IsPending)|
  {
    |Filter(assignments, IsPending)|
  }

  function PendingWithId(id: int): Assignment -> bool {
    (a: Assignment) => a.id == id && a.status == "PENDING"
  }

  /** A decision takes every pending assignment with the decided id out of the pending
      count, and no other. */
  lemma {:induction false} DecisionLowersPending(assignments: seq<Assignment>, id: int, v: Verdict, comments: string)
    ensures PendingCount(Decide(assignments, id, VerdictStatus(v), comments)) + |Filter(assignments, PendingWithId(id))|
            == PendingCount(assignments)
  {
    if assignments != [] {
      var d := Decide(assignments, id, VerdictStatus(v), comments);
      DecisionLowersPending(assignments[1..], id, v, comments);
      assert d[1..] == Decide(assignments[1..], id, VerdictStatus(v), comments);
    }
  }

  /** With one pending assignment per id, deciding it lowers the count by one. */
  lemma DecidingOnePendingLowersByOne(assignments: seq<Assignment>, k: nat, v: Verdict, comments: string)
    requires k < |assignments| && assignments[k].status == "PENDING"
    requires forall j :: 0 <= j < |assignments| && j != k ==> assignments[j].id != assignments[k].id
    ensures PendingCount(Decide(assignments, assignments[k].id, VerdictStatus(v), comments)) == PendingCount(assignments) - 1
  {
    var id := assignments[k].id;
    DecisionLowersPending(assignments, id, v, comments);
    OnlyOneMatches(assignments, k, PendingWithId(id));
  }
}
