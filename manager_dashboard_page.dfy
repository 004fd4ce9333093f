/** The manager's dashboard (frontend/src/app/manager/page.tsx): the four numbers derived
    from the pending ratings, the team's ratings and the project requests. */
module ManagerDashboardPage {
  import opened Common
  import opened Ui

  datatype TeamItem = TeamItem(id: int, employeeId: int, managerStatus: string)

  datatype DashboardStats = DashboardStats(pendingApprovals: nat, teamMembers: nat, approvedRatings: nat, projectRequests: nat)

  function EmployeeOf(r: TeamItem): int { r.employeeId }

  function IsApproved(r: TeamItem): bool {
    r.managerStatus == "APPROVED"
  }

  /** `new Set(team.map(r => r.employeeId)).size`: the number of team members with a
      rating, never more than the number of ratings. */
  function TeamMembers(team: seq<TeamItem>): (r: nat)
    ensures r == |set x | x in team :: x.employeeId|
    ensures r <= |team|
    ensures team != [] ==> r >= 1
  {
    var ids := Mapped(team, EmployeeOf);
    assert (set x | x in ids) == (set x | x in team :: x.employeeId) by {
      forall e | e in (set x | x in team :: x.employeeId)
        ensures e in ids
      {
        var x :| x in team && x.employeeId == e;
        var i :| 0 <= i < |team| && team[i] == x;
        assert ids[i] == e;
      }
    }
    SetSizeIsDistinctLength(ids);
    assert team != [] ==> ids[0] in (set x | x in ids);
    |set x | x in team :: x.employeeId|
  }

  /** `loadStats` (lines 32-54). The pending and team lists are awaited together and a
      failure of either keeps the previous numbers. The project request reply is the
      `length` of the response, None when it has none (an object); its failure counts
      as an empty list. */
  function LoadStats<P>(previous: DashboardStats, pending: Reply<seq<P>>, team: Reply<seq<TeamItem>>,
                        projects: Reply<Option<nat>>): (r: DashboardStats)
    ensures pending.Failed? || team.Failed? ==> r == previous
    ensures pending.Replied? && team.Replied? ==>
              && r.pendingApprovals == |pending.value|
              && r.teamMembers == |set x | x in team.value :: x.employeeId|
              && r.teamMembers <= |team.value|
              && r.approvedRatings == |Filter(team.value, IsApproved)|
              && r.approvedRatings <= |team.value|
              && (r.projectRequests == if projects.Replied? && projects.value.Some? then projects.value.value else 0)
  {
    match (pending, team)
    case (Replied(p), Replied(t)) =>
      DashboardStats(|p|, TeamMembers(t), |Filter(t, IsApproved)|,
                     match projects
                     case Replied(Some(n)) => n
                     case _ => 0)
    case _ => previous
  }

  /** The members with an approved rating are among the counted team members, so they
      are never more than the team members. */
  lemma ApprovedMembersAreMembers(team: seq<TeamItem>)
    ensures (set x | x in Filter(team, IsApproved) :: x.employeeId) <= (set x | x in team :: x.employeeId)
    ensures TeamMembers(Filter(team, IsApproved)) <= TeamMembers(team)
  {
    SubsetCardinality((set x | x in Filter(team, IsApproved) :: x.employeeId), (set x | x in team :: x.employeeId));
  }
}
