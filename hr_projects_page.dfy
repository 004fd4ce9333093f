/** The HR project list (frontend/src/app/hr/projects/page.tsx): loading and normalising the
    projects, the status filter, the per-project assignment numbers and the summary
    cards. */
module HrProjectsPage {
  import opened Common
  import opened Ui

  const ALL: string := "all"

  datatype AssignmentRow = AssignmentRow(id: int, status: string)

  datatype Project = Project(
    id: int, name: string, status: string, assignments: seq<AssignmentRow>, assignmentsCount: Option<int>)

  datatype State = State(projects: seq<Project>, statusFilter: string, error: Option<string>, loading: bool)

  /** `loadProjects` (lines 79-92): the normalised response replaces the list; a failure
      keeps it and sets the error. */
  function LoadProjects(st: State, reply: Reply<ProjectsResponse<Project>>): (r: State)
    ensures reply.Replied? ==> r == st.(projects := ProjectList(reply.value), loading := false)
    ensures reply.Failed? ==> r == st.(error := Some(reply.message), loading := false)
    ensures reply.Replied? && reply.value.ProjectObject? && reply.value.projects.None? ==> r.projects == []
  {
    match reply
    case Replied(data) => st.(projects := ProjectList(data), loading := false)
    case Failed(message) => st.(error := Some(message), loading := false)
  }

  function StatusOf(p: Project): string {
    p.status
  }

  /** `filterProjects` (lines 94-102), rerun whenever the list or the filter changes: 'all'
      shows every project, any other filter exactly the projects with that status, in
      order. */
  function FilteredProjects(st: State): (r: seq<Project>)
    ensures SubseqOf(r, st.projects)
    ensures st.statusFilter == ALL ==> r == st.projects
    ensures st.statusFilter != ALL ==> forall p :: p in r <==> p in st.projects && p.status == st.statusFilter
  {
    WhereKey(st.projects, StatusOf, st.statusFilter, ALL)
  }

  datatype AssignmentStats = AssignmentStats(total: Option<int>, pending: nat, approved: nat)

  function RowHasStatus(status: string): AssignmentRow -> bool {
    (a: AssignmentRow) => a.status == status
  }

  function Never(a: AssignmentRow): bool {
    false
  }

  /** `getAssignmentStats` (lines 140-149): the total is the server's `assignmentsCount`;
      the pending and approved numbers count the listed assignments and together never
      exceed them. */
  function GetAssignmentStats(p: Project): (r: AssignmentStats)
    ensures r.total == p.assignmentsCount
    ensures r.pending == |Filter(p.assignments, RowHasStatus("PENDING"))|
    ensures r.approved == |Filter(p.assignments, RowHasStatus("APPROVED"))|
    ensures r.pending + r.approved <= |p.assignments|
  {
    ExclusiveCounts(p.assignments, RowHasStatus("PENDING"), RowHasStatus("APPROVED"), Never);
    AssignmentStats(p.assignmentsCount, |Filter(p.assignments, RowHasStatus("PENDING"))|,
                    |Filter(p.assignments, RowHasStatus("APPROVED"))|)
  }

  /** `p.assignmentsCount || 0`. */
  function CountOrZero(p: Project): int {
    if p.assignmentsCount.Some? then p.assignmentsCount.value else 0
  }

  /** Total Assignments (lines 226-229): the running sum of the counts, a missing one
      adding nothing. */
  function TotalAssignments(projects: seq<Project>): (r: int)
    ensures (forall i :: 0 <= i < |projects| ==> CountOrZero(projects[i]) >= 0) ==> r >= 0
    ensures (forall i :: 0 <= i < |projects| ==> projects[i].assignmentsCount.None?) ==> r == 0
  {
    if projects == [] then 0
    else TotalAssignments(projects[..|projects| - 1]) + CountOrZero(projects[|projects| - 1])
  }

  /** The total of two lists is the sum of their totals: the order of the projects does
      not matter to the card. */
  lemma {:induction false} TotalAssignmentsSplits(a: seq<Project>, b: seq<Project>)
    ensures TotalAssignments(a + b) == TotalAssignments(a) + TotalAssignments(b)
    decreases |b|
  {
    if b != [] {
      TotalAssignmentsSplits(a, b[..|b| - 1]);
      assert (a + b)[..|a + b| - 1] == a + b[..|b| - 1];
    } else {
      assert a + b == a;
    }
  }

  function ProjectHasStatus(status: string): Project -> bool {
    (p: Project) => p.status == status
  }

  datatype Summary = Summary(total: nat, active: nat, pending: nat, assignments: int)

  /** The summary cards (lines 188-236): the number of projects, of ACTIVE and PENDING
      ones, and the assignment total. */
  function SummaryCards(projects: seq<Project>): (r: Summary)
    ensures r.total == |projects|
    ensures r.active == |Filter(projects, ProjectHasStatus("ACTIVE"))|
    ensures r.pending == |Filter(projects, ProjectHasStatus("PENDING"))|
    ensures r.active + r.pending <= r.total
    ensures r.assignments == TotalAssignments(projects)
  {
    ExclusiveCounts(projects, ProjectHasStatus("ACTIVE"), ProjectHasStatus("PENDING"), ProjectHasStatus(""));
    Summary(|projects|, |Filter(projects, ProjectHasStatus("ACTIVE"))|, |Filter(projects, ProjectHasStatus("PENDING"))|,
            TotalAssignments(projects))
  }
}
