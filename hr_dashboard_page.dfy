/** The HR dashboard (frontend/src/app/hr/page.tsx): the numbers derived from the projects,
    skills and employees, and the five most recent projects. The fetched project array is
    sorted in place, newest first, before its first five elements are taken. Creation
    times are integers. */
module HrDashboardPage {
  import opened Common
  import opened Ui

  datatype AssignmentRow = AssignmentRow(id: int, status: string)

  datatype Project = Project(id: int, name: string, status: string, createdAt: int, assignments: Option<seq<AssignmentRow>>)

  datatype DashboardStats = DashboardStats(
    totalProjects: nat, activeProjects: nat, totalSkills: nat, pendingAssignments: nat,
    totalEmployees: nat, recentProjects: seq<Project>)

  /** Newest first. */
  predicate NewestFirst(s: seq<Project>) {
    forall k, l :: 0 <= k < l < |s| ==> s[k].createdAt >= s[l].createdAt
  }

  /** `projectsData.sort((a, b) => b.createdAt - a.createdAt)`: an insertion sort that
      leaves the array newest first and holding the same projects. */
  method SortNewestFirst(a: array<Project>)
    modifies a
    ensures NewestFirst(a[..])
    ensures multiset(a[..]) == multiset(old(a[..]))
  {
    var i := 0;
    while i < a.Length
      invariant 0 <= i <= a.Length
      invariant NewestFirst(a[..i])
      invariant multiset(a[..]) == multiset(old(a[..]))
    {
      InsertLast(a, i);
      i := i + 1;
    }
    assert a[..a.Length] == a[..];
  }

  /** One step of the sort: the project at `i` moves left past the older ones, after which
      the first `i + 1` projects are newest first. */
  method InsertLast(a: array<Project>, i: nat)
    requires i < a.Length && NewestFirst(a[..i])
    modifies a
    ensures NewestFirst(a[..i + 1])
    ensures multiset(a[..]) == multiset(old(a[..]))
  {
    var j := i;
    while j > 0 && a[j - 1].createdAt < a[j].createdAt
      invariant 0 <= j <= i
      invariant forall k, l :: 0 <= k < l <= i && k != j && l != j ==> a[k].createdAt >= a[l].createdAt
      invariant forall l :: j < l <= i ==> a[j].createdAt >= a[l].createdAt
      invariant multiset(a[..]) == multiset(old(a[..]))
    {
      Swap(a, j);
      j := j - 1;
    }
  }

  /** Exchanges the projects at `j - 1` and `j`. */
  method Swap(a: array<Project>, j: nat)
    requires 0 < j < a.Length
    modifies a
    ensures a[j - 1] == old(a[j]) && a[j] == old(a[j - 1])
    ensures forall k :: 0 <= k < a.Length && k != j - 1 && k != j ==> a[k] == old(a[k])
    ensures multiset(a[..]) == multiset(old(a[..]))
  {
    a[j - 1], a[j] := a[j], a[j - 1];
  }

  function IsActive(p: Project): bool {
    p.status == "ACTIVE"
  }

  function RowIsPending(a: AssignmentRow): bool {
    a.status == "PENDING"
  }

  /** `p.assignments?.filter(a => a.status === 'PENDING').length || 0`. */
  function PendingOf(p: Project): (r: nat)
    ensures p.assignments.None? ==> r == 0
    ensures p.assignments.Some? ==> r <= |p.assignments.value|
  {
    if p.assignments.Some? then |Filter(p.assignments.value, RowIsPending)| else 0
  }

  /** `pendingAssignments` (lines 70-76): the running sum over the projects. */
  function PendingSum(projects: seq<Project>): (r: nat)
    ensures (forall i :: 0 <= i < |projects| ==> projects[i].assignments.None?) ==> r == 0
  {
    if projects == [] then 0 else PendingSum(projects[..|projects| - 1]) + PendingOf(projects[|projects| - 1])
  }

  /** The sum is taken over the whole list, so it does not depend on its order: two lists
      holding the same projects have the same sum. */
  lemma {:induction false} PendingSumIgnoresOrder(s: seq<Project>, t: seq<Project>)
    requires multiset(s) == multiset(t)
    ensures PendingSum(s) == PendingSum(t)
    decreases |s|
  {
    if s != [] {
      var last := s[|s| - 1];
      assert last in multiset(t);
      var k :| 0 <= k < |t| && t[k] == last;
      var rest := t[..k] + t[k + 1..];
      assert t == t[..k] + [last] + t[k + 1..];
      assert s == s[..|s| - 1] + [last];
      assert multiset(s) == multiset(s[..|s| - 1]) + multiset{last};
      assert multiset(t) == multiset(t[..k]) + multiset{last} + multiset(t[k + 1..]);
      assert multiset(rest) == multiset(t[..k]) + multiset(t[k + 1..]);
      assert multiset(s[..|s| - 1]) == multiset(s) - multiset{last};
      assert multiset(rest) == multiset(t) - multiset{last};
      assert (rest + [last])[..|rest + [last]| - 1] == rest;
      PendingSumIgnoresOrder(s[..|s| - 1], rest);
      PendingSumMoveToEnd(t[..k], last, t[k + 1..]);
    }
  }

  /** Moving one project to the end does not change the sum. */
  lemma {:induction false} PendingSumMoveToEnd(a: seq<Project>, x: Project, b: seq<Project>)
    ensures PendingSum(a + [x] + b) == PendingSum(a + b + [x])
    decreases |b|
  {
    if b != [] {
      var init := b[..|b| - 1];
      var last := b[|b| - 1];
      PendingSumMoveToEnd(a, x, init);
      assert (a + [x] + b)[..|a + [x] + b| - 1] == a + [x] + init;
      assert (a + b + [x])[..|a + b + [x]| - 1] == a + b;
      assert (a + init + [x])[..|a + init + [x]| - 1] == a + init;
      assert (a + b)[..|a + b| - 1] == a + init;
    } else {
      assert a + [x] + b == a + b + [x];
    }
  }

  /** `loadDashboardData` (lines 49-99). Each fetch falls back to an empty list on its
      own; the projects are normalised, counted, summed, sorted newest first in place and
      cut to five. */
  method LoadDashboardData(projectsResp: Reply<ProjectsResponse<Project>>, skills: Reply<seq<int>>, employees: Reply<seq<int>>)
    returns (stats: DashboardStats)
    ensures var data := if projectsResp.Replied? then ProjectList(projectsResp.value) else [];
      && stats.totalProjects == |data|
      && stats.activeProjects == |Filter(data, IsActive)|
      && stats.pendingAssignments == PendingSum(data)
      && |stats.recentProjects| == (if |data| < 5 then |data| else 5)
      && NewestFirst(stats.recentProjects)
      && multiset(stats.recentProjects) <= multiset(data)
      && (forall p, q :: p in stats.recentProjects && q in multiset(data) - multiset(stats.recentProjects) ==>
            p.createdAt >= q.createdAt)
    ensures stats.totalSkills == if skills.Replied? then |skills.value| else 0
    ensures stats.totalEmployees == if employees.Replied? then |employees.value| else 0
  {
    var data := if projectsResp.Replied? then ProjectList(projectsResp.value) else [];
    var skillsData := if skills.Replied? then skills.value else [];
    var employeesData := if employees.Replied? then employees.value else [];
    var sorted := new Project[|data|](i requires 0 <= i < |data| => data[i]);
    assert sorted[..] == data;
    SortNewestFirst(sorted);
    var n := if sorted.Length < 5 then sorted.Length else 5;
    var recent := sorted[..n];
    assert sorted[..] == recent + sorted[n..];
    TopOfSorted(sorted[..], n);
    stats := DashboardStats(|data|, |Filter(data, IsActive)|, |skillsData|, PendingSum(data),
                            |employeesData|, recent);
  }

  /** The first `n` elements of a newest-first list are newest first, and none of the
      remaining ones is newer than any of them. */
  lemma TopOfSorted(s: seq<Project>, n: nat)
    requires n <= |s| && NewestFirst(s)
    ensures NewestFirst(s[..n])
    ensures multiset(s[..n]) <= multiset(s)
    ensures forall p, q :: p in s[..n] && q in multiset(s) - multiset(s[..n]) ==> p.createdAt >= q.createdAt
  {
    SplitMultiset(s, n);
    forall p, q | p in s[..n] && q in multiset(s[n..])
      ensures p.createdAt >= q.createdAt
    {
      NewerBefore(s, n, p, q);
    }
  }

  /** Cutting a list after `n` elements splits its multiset. */
  lemma SplitMultiset(s: seq<Project>, n: nat)
    requires n <= |s|
    ensures multiset(s[..n]) <= multiset(s)
    ensures multiset(s) - multiset(s[..n]) == multiset(s[n..])
  {
    assert s == s[..n] + s[n..];
  }

  /** In a newest-first list, a project before the cut is at least as new as one after it. */
  lemma NewerBefore(s: seq<Project>, n: nat, p: Project, q: Project)
    requires n <= |s| && NewestFirst(s)
    requires p in s[..n] && q in s[n..]
    ensures p.createdAt >= q.createdAt
  {
    var k :| 0 <= k < n && s[..n][k] == p;
    var l :| 0 <= l < |s| - n && s[n..][l] == q;
    assert s[k] == p && s[n + l] == q;
  }
}
