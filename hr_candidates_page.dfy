/** The HR candidate-selection page (frontend/src/app/hr/candidates/page.tsx): the projects
    open for staffing, the candidate analysis, the assignment and the score grades. The
    project selection is the project id, or None for the empty selection; the API calls
    are parameters. */
module HrCandidatesPage {
  import opened Common
  import opened Ui

  const SELECT_PROJECT: string := "Please select a project"

  datatype Project = Project(id: int, name: string, status: string)

  datatype Candidate = Candidate(employeeId: int, skillIndex: real, matchPercentage: real)

  datatype State = State(
    projects: seq<Project>, selectedProjectId: Option<int>, candidates: seq<Candidate>,
    error: Option<string>, selectedCandidate: Option<Candidate>, assignOpen: bool, assignComments: string)

  function IsOpenForStaffing(p: Project): bool {
    p.status == "ACTIVE" || p.status == "PENDING"
  }

  /** The projects kept by `loadProjects` (lines 103-105). */
  function StaffableProjects(data: seq<Project>): (r: seq<Project>)
    ensures SubseqOf(r, data)
    ensures forall p :: p in r <==> p in data && (p.status == "ACTIVE" || p.status == "PENDING")
  {
    FilterIsSubseq(data, IsOpenForStaffing);
    Filter(data, IsOpenForStaffing)
  }

  /** The TypeError that `data.filter(...)` throws when `data` is not an array. */
  const FILTER_NOT_A_FUNCTION: string := "data.filter is not a function"

  /** `loadProjects` (lines 99-116) as written: the reply is filtered as an array, so an
      object reply makes `data.filter` throw and the catch only sets the error. */
  function LoadProjectsAsWritten(st: State, reply: Reply<ProjectsResponse<Project>>): (r: State)
    ensures reply.Replied? && reply.value.ProjectArray? ==>
              && r.projects == StaffableProjects(reply.value.items)
              && (r.projects != [] ==> r.selectedProjectId == Some(r.projects[0].id))
              && (r.projects == [] ==> r.selectedProjectId == st.selectedProjectId)
              && r.error == st.error
    ensures reply.Replied? && reply.value.ProjectObject? ==> r == st.(error := Some(FILTER_NOT_A_FUNCTION))
    ensures reply.Failed? ==> r == st.(error := Some(reply.message))
  {
    match reply
    case Failed(message) => st.(error := Some(message))
    case Replied(ProjectObject(_)) => st.(error := Some(FILTER_NOT_A_FUNCTION))
    case Replied(ProjectArray(data)) =>
      var active := StaffableProjects(data);
      if |active| > 0 then st.(projects := active, selectedProjectId := Some(active[0].id))
      else st.(projects := active)
  }

  /** `getAllProjects` answers `{ totalProjects, projects }`: as written, such a reply
      leaves the list and the selection as they were and shows the TypeError, where the
      normalised load lists the staffable projects; a page that starts with no projects
      never lists one. */
  lemma ServerReplyNeverListsProjects(st: State, projects: seq<Project>)
    requires StaffableProjects(projects) != []
    ensures var reply := Replied(ProjectObject(Some(projects)));
      && LoadProjectsAsWritten(st, reply).projects == st.projects
      && LoadProjectsAsWritten(st, reply).selectedProjectId == st.selectedProjectId
      && LoadProjectsAsWritten(st, reply).error == Some(FILTER_NOT_A_FUNCTION)
      && LoadProjects(st, reply).projects == StaffableProjects(projects)
      && (st.projects == [] ==> LoadProjectsAsWritten(st, reply).projects != LoadProjects(st, reply).projects)
  {
  }

  /** `loadProjects` with the reply normalised as the other HR pages do (`ProjectList`):
      the staffable projects of the list replace the page's list and the first of them, if
      any, becomes the selection; a failure keeps both and sets the error. */
  function LoadProjects(st: State, reply: Reply<ProjectsResponse<Project>>): (r: State)
    ensures reply.Replied? ==>
              && r.projects == StaffableProjects(ProjectList(reply.value))
              && (r.projects != [] ==> r.selectedProjectId == Some(r.projects[0].id))
              && (r.projects == [] ==> r.selectedProjectId == st.selectedProjectId)
              && r.error == st.error
    ensures reply.Failed? ==> r == st.(error := Some(reply.message))
    ensures r.candidates == st.candidates
  {
    match reply
    case Failed(message) => st.(error := Some(message))
    case Replied(data) =>
      var active := StaffableProjects(ProjectList(data));
      if |active| > 0 then st.(projects := active, selectedProjectId := Some(active[0].id))
      else st.(projects := active)
  }

  /** The correction changes only the object replies: on an array, or on a failure, the
      page behaves as written. */
  lemma CorrectionKeepsArrayReplies(st: State, reply: Reply<ProjectsResponse<Project>>)
    requires reply.Failed? || reply.value.ProjectArray?
    ensures LoadProjects(st, reply) == LoadProjectsAsWritten(st, reply)
  {
  }

  function HasId(id: int): Project -> bool {
    (p: Project) => p.id == id
  }

  /** `selectedProject` (lines 189-191): the first project with the selected id. */
  function SelectedProject(projects: seq<Project>, selected: Option<int>): (r: Option<Project>)
    ensures selected.None? ==> r.None?
    ensures selected.Some? ==> (r.None? <==> forall i :: 0 <= i < |projects| ==> projects[i].id != selected.value)
    ensures r.Some? ==> r.value in projects && r.value.id == selected.value
    ensures selected.Some? ==>
              forall i :: (0 <= i < |projects| && projects[i].id == selected.value
                           && forall j :: 0 <= j < i ==> projects[j].id != selected.value) ==> r == Some(projects[i])
  {
    match selected
    case None => None
    case Some(id) => Find(projects, HasId(id))
  }

  /** After a load that keeps a project, the page shows the first kept project. */
  lemma LoadSelectsFirstProject(st: State, data: ProjectsResponse<Project>)
    requires StaffableProjects(ProjectList(data)) != []
    ensures var r := LoadProjects(st, Replied(data));
      SelectedProject(r.projects, r.selectedProjectId) == Some(StaffableProjects(ProjectList(data))[0])
  {
  }

  /** `handleAnalyzeCandidates` (lines 118-135): without a selection only the error is set
      and nothing is requested; otherwise the candidates of the selected project are
      fetched, and a failure clears them. */
  function HandleAnalyze(st: State, reply: Reply<seq<Candidate>>): (r: (State, Option<int>))
    ensures st.selectedProjectId.None? ==> r == (st.(error := Some(SELECT_PROJECT)), None)
    ensures st.selectedProjectId.Some? ==> r.1 == st.selectedProjectId
    ensures st.selectedProjectId.Some? && reply.Replied? ==> r.0 == st.(candidates := reply.value, error := None)
    ensures st.selectedProjectId.Some? && reply.Failed? ==> r.0 == st.(candidates := [], error := Some(reply.message))
  {
    if st.selectedProjectId.None? then (st.(error := Some(SELECT_PROJECT)), None)
    else match reply
      case Replied(data) => (st.(candidates := data, error := None), st.selectedProjectId)
      case Failed(message) => (st.(candidates := [], error := Some(message)), st.selectedProjectId)
  }

  /** `openAssignDialog` (lines 142-147). */
  function OpenAssignDialog(st: State, c: Candidate): (r: State)
    ensures r == st.(selectedCandidate := Some(c), assignComments := "", error := None, assignOpen := true)
  {
    st.(selectedCandidate := Some(c), assignComments := "", error := None, assignOpen := true)
  }

  function OtherEmployee(employeeId: int): Candidate -> bool {
    (c: Candidate) => c.employeeId != employeeId
  }

  /** `candidates.filter(c => c.employeeId !== employeeId)`. */
  function RemoveCandidate(candidates: seq<Candidate>, employeeId: int): (r: seq<Candidate>)
    ensures SubseqOf(r, candidates)
    ensures forall c :: c in r <==> c in candidates && c.employeeId != employeeId
  {
    FilterIsSubseq(candidates, OtherEmployee(employeeId));
    Filter(candidates, OtherEmployee(employeeId))
  }

  /** `handleAssign` (lines 149-173): nothing without a candidate and a project. Otherwise
      (project, employee, comments) is sent; on success every candidate with that employee
      id leaves the list and the dialog closes, and on failure only the error changes. */
  function HandleAssign(st: State, result: CallResult): (r: (State, Option<(int, int, string)>))
    ensures st.selectedCandidate.None? || st.selectedProjectId.None? ==> r == (st, None)
    ensures st.selectedCandidate.Some? && st.selectedProjectId.Some? ==>
              r.1 == Some((st.selectedProjectId.value, st.selectedCandidate.value.employeeId, st.assignComments))
    ensures st.selectedCandidate.Some? && st.selectedProjectId.Some? && result.Succeeded? ==>
              r.0 == st.(candidates := RemoveCandidate(st.candidates, st.selectedCandidate.value.employeeId),
                         assignOpen := false, selectedCandidate := None, error := None)
    ensures st.selectedCandidate.Some? && st.selectedProjectId.Some? && result.CallFailed? ==>
              r.0 == st.(error := Some(result.message))
  {
    if st.selectedCandidate.None? || st.selectedProjectId.None? then (st, None)
    else
      var employeeId := st.selectedCandidate.value.employeeId;
      var sent := Some((st.selectedProjectId.value, employeeId, st.assignComments));
      match result
      case Succeeded =>
        (st.(candidates := RemoveCandidate(st.candidates, employeeId), assignOpen := false,
             selectedCandidate := None, error := None), sent)
      case CallFailed(message) => (st.(error := Some(message)), sent)
  }

  /** After a successful assignment the assigned employee is no longer a candidate and
      every other candidate is still listed. */
  lemma AssignedEmployeeLeaves(st: State)
    requires st.selectedCandidate.Some? && st.selectedProjectId.Some?
    ensures var after := HandleAssign(st, Succeeded).0;
      && (forall c :: c in after.candidates ==> c.employeeId != st.selectedCandidate.value.employeeId)
      && (forall c :: c in st.candidates && c.employeeId != st.selectedCandidate.value.employeeId ==> c in after.candidates)
  {
  }

  /** The match grades behind `getScoreColor` and `getScoreBadge` (lines 175-187): green
      excellent from 70, yellow good from 50, red weak below. */
  datatype Grade = Excellent | Good | Weak

  function ScoreGrade(score: real): (r: Grade)
    ensures r == Excellent <==> score >= 70.0
    ensures r == Good <==> 50.0 <= score < 70.0
    ensures r == Weak <==> score < 50.0
  {
    if score >= 70.0 then Excellent else if score >= 50.0 then Good else Weak
  }

  function GradeOrder(g: Grade): nat {
    match g
    case Weak => 0
    case Good => 1
    case Excellent => 2
  }

  /** A higher score never gets a lower grade. */
  lemma ScoreGradeMonotone(a: real, b: real)
    requires a <= b
    ensures GradeOrder(ScoreGrade(a)) <= GradeOrder(ScoreGrade(b))
  {
  }
}
