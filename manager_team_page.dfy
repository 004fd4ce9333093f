/** The manager's team page (frontend/src/app/manager/team/page.tsx): the status and
    employee filters over the team's ratings, the list of distinct employees and the status
    counts. The employee filter holds an employee id, or None for 'ALL'. */
module ManagerTeamPage {
  import opened Common

  const ALL: string := "ALL"

  datatype TeamRating = TeamRating(id: int, managerStatus: string, employeeId: int, firstName: string, lastName: string)

  function HasStatus(status: string): TeamRating -> bool {
    (r: TeamRating) => r.managerStatus == status
  }

  function OfEmployee(id: int): TeamRating -> bool {
    (r: TeamRating) => r.employeeId == id
  }

  /** `applyFilters` (lines 76-88): the status filter first, then the employee filter. */
  function ApplyFilters(ratings: seq<TeamRating>, statusFilter: string, employeeFilter: Option<int>): (r: seq<TeamRating>)
    ensures SubseqOf(r, ratings)
    ensures forall x :: x in r <==>
              x in ratings
              && (statusFilter == ALL || x.managerStatus == statusFilter)
              && (employeeFilter.None? || x.employeeId == employeeFilter.value)
  {
    var byStatus := if statusFilter != ALL then Filter(ratings, HasStatus(statusFilter)) else ratings;
    var byEmployee := if employeeFilter.Some? then Filter(byStatus, OfEmployee(employeeFilter.value)) else byStatus;
    FilterIsSubseq(ratings, HasStatus(statusFilter));
    FilterIsSubseq(byStatus, OfEmployee(if employeeFilter.Some? then employeeFilter.value else 0));
    SubseqOfItself(ratings);
    SubseqOfItself(byStatus);
    SubseqTransitive(byEmployee, byStatus, ratings);
    byEmployee
  }

  /** With both filters at 'ALL' the list is the team's ratings. */
  lemma NoFiltersShowAll(ratings: seq<TeamRating>)
    ensures ApplyFilters(ratings, ALL, None) == ratings
  {
  }

  /** Applying the employee filter before the status filter gives the same list. */
  lemma FiltersCommute(ratings: seq<TeamRating>, status: string, employeeId: int)
    requires status != ALL
    ensures ApplyFilters(ratings, status, Some(employeeId))
            == Filter(Filter(ratings, OfEmployee(employeeId)), HasStatus(status))
  {
    FilterCommutes(ratings, HasStatus(status), OfEmployee(employeeId));
  }

  /** Clear Filters (lines 247-250) resets both filters, which shows every rating again. */
  function ClearFilters(): (r: (string, Option<int>))
    ensures forall ratings :: ApplyFilters(ratings, r.0, r.1) == ratings
  {
    (ALL, None)
  }

  // ---------------------------------------------------------------------------
  // Distinct employees

  function EmployeeOf(r: TeamRating): int { r.employeeId }

  /** `ratings.map(r => r.employeeId)`. */
  function EmployeeIds(ratings: seq<TeamRating>): seq<int> {
    Mapped(ratings, EmployeeOf)
  }

  /** The position of the last rating of employee `id`. */
  function LastOf(ratings: seq<TeamRating>, id: int): (k: nat)
    requires id in EmployeeIds(ratings)
    ensures k < |ratings| && ratings[k].employeeId == id
    ensures forall j :: k < j < |ratings| ==> ratings[j].employeeId != id
  {
    if ratings[|ratings| - 1].employeeId == id then |ratings| - 1
    else
      assert id in EmployeeIds(ratings[..|ratings| - 1]) by {
        var i :| 0 <= i < |ratings| && EmployeeIds(ratings)[i] == id;
        assert EmployeeIds(ratings[..|ratings| - 1])[i] == id;
      }
      LastOf(ratings[..|ratings| - 1], id)
  }

  function FullName(r: TeamRating): string {
    r.firstName + " " + r.lastName
  }

  /** `Array.from(new Map(ratings.map(r => [r.employee.id, {id, name}])).values())` (lines
      118-128): one entry per employee id, in the order the ids first appear, each named
      after the LAST rating of that employee (a later `set` overwrites the value but keeps
      the key's place). */
  function Employees(ratings: seq<TeamRating>): (r: seq<(int, string)>)
    ensures |r| == |Distinct(EmployeeIds(ratings))|
    ensures forall i :: 0 <= i < |r| ==> r[i].0 == Distinct(EmployeeIds(ratings))[i]
    ensures forall i :: 0 <= i < |r| ==>
              exists k :: 0 <= k < |ratings| && ratings[k].employeeId == r[i].0 && r[i].1 == FullName(ratings[k])
                          && forall j :: k < j < |ratings| ==> ratings[j].employeeId != r[i].0
  {
    var ids := Distinct(EmployeeIds(ratings));
    seq(|ids|, i requires 0 <= i < |ids| => (ids[i], FullName(ratings[LastOf(ratings, ids[i])])))
  }

  /** The ids of the employee list. */
  function ListedIds(ratings: seq<TeamRating>): (r: seq<int>)
    ensures r == Distinct(EmployeeIds(ratings))
  {
    var e := Employees(ratings);
    assert forall i :: 0 <= i < |e| ==> e[i].0 == Distinct(EmployeeIds(ratings))[i];
    seq(|e|, i requires 0 <= i < |e| => e[i].0)
  }

  /** The employee list has no repeated id and lists the ids in order of first occurrence. */
  lemma EmployeesAreDistinct(ratings: seq<TeamRating>)
    ensures NoDuplicates(ListedIds(ratings))
    ensures forall i, j :: 0 <= i < j < |ListedIds(ratings)| ==>
              FirstPos(EmployeeIds(ratings), ListedIds(ratings)[i]) < FirstPos(EmployeeIds(ratings), ListedIds(ratings)[j])
  {
    DistinctInFirstOccurrenceOrder(EmployeeIds(ratings));
  }

  /** Every employee with a rating is listed, and only those. */
  lemma EmployeesCoverTheTeam(ratings: seq<TeamRating>)
    ensures forall id :: id in ListedIds(ratings) <==> id in EmployeeIds(ratings)
  {
  }

  // ---------------------------------------------------------------------------
  // Stats

  datatype Stats = Stats(total: nat, pending: nat, approved: nat, rejected: nat)

  /** `stats` (lines 131-136). */
  function TeamStats(ratings: seq<TeamRating>): (r: Stats)
    ensures r.total == |ratings|
    ensures r.pending == |ApplyFilters(ratings, "PENDING", None)|
    ensures r.approved == |ApplyFilters(ratings, "APPROVED", None)|
    ensures r.rejected == |ApplyFilters(ratings, "REJECTED", None)|
  {
    Stats(|ratings|, |Filter(ratings, HasStatus("PENDING"))|, |Filter(ratings, HasStatus("APPROVED"))|,
          |Filter(ratings, HasStatus("REJECTED"))|)
  }

  /** The three status counts never exceed the total, and make it up exactly when every
      rating has one of the three statuses. */
  lemma StatsAddUp(ratings: seq<TeamRating>)
    ensures TeamStats(ratings).pending + TeamStats(ratings).approved + TeamStats(ratings).rejected <= TeamStats(ratings).total
    ensures (forall i :: 0 <= i < |ratings| ==> ratings[i].managerStatus in {"PENDING", "APPROVED", "REJECTED"}) ==>
              TeamStats(ratings).pending + TeamStats(ratings).approved + TeamStats(ratings).rejected == TeamStats(ratings).total
  {
    ExclusiveCounts(ratings, HasStatus("PENDING"), HasStatus("APPROVED"), HasStatus("REJECTED"));
  }
}
