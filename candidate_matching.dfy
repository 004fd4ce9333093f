/** `calculateCandidateMatches` (Backend/src/controllers/projectController.js:335-431):
    for every employee, the weighted skill index over the project's matched requirements,
    the share of required skills held with an approved rating, and the names of the
    required skills the employee lacks; the project's old match rows are then replaced. */
module CandidateMatching {
  import opened Common
  import opened Store

  /** A requirement that takes part in scoring: this project's, matched, with a skill id. */
  predicate Scored(projectId: int, r: Requirement) {
    r.projectId == projectId && !r.isMissing && r.skillId.Some?
  }

  function ScoredIn(projectId: int): Requirement -> bool {
    (r: Requirement) => Scored(projectId, r)
  }

  /** The `projectSkillRequirement.findMany` of line 338, in table order. */
  function ScoredRequirements(rows: seq<Requirement>, projectId: int): (r: seq<Requirement>)
    ensures forall i :: 0 <= i < |r| ==> Scored(projectId, r[i])
    ensures forall x :: x in rows && Scored(projectId, x) ==> x in r
  {
    var r := Filter(rows, ScoredIn(projectId));
    assert forall i :: 0 <= i < |r| ==> r[i] in r;
    r
  }

  predicate AllScorable(reqs: seq<Requirement>) {
    forall i :: 0 <= i < |reqs| ==> reqs[i].skillId.Some?
  }

  /** `requirements.map((r) => r.skillId)`. */
  function RequiredIds(reqs: seq<Requirement>): (ids: seq<int>)
    requires AllScorable(reqs)
    ensures |ids| == |reqs|
    ensures forall i :: 0 <= i < |reqs| ==> ids[i] == reqs[i].skillId.value
  {
    seq(|reqs|, i requires 0 <= i < |reqs| => reqs[i].skillId.value)
  }

  /** The `skills` include of line 356: this employee's APPROVED records of a required skill. */
  predicate Held(employeeId: int, ids: seq<int>, es: EmployeeSkill) {
    es.employeeId == employeeId && es.skillId in ids && es.managerStatus == Approved
  }

  function HeldBy(employeeId: int, ids: seq<int>): EmployeeSkill -> bool {
    (es: EmployeeSkill) => Held(employeeId, ids, es)
  }

  function HeldRecords(ratings: seq<EmployeeSkill>, employeeId: int, ids: seq<int>): seq<EmployeeSkill> {
    Filter(ratings, HeldBy(employeeId, ids))
  }

  /** `es.managerRating || es.selfRating`. */
  function RatingOf(es: EmployeeSkill): (r: Option<int>)
    ensures Truthy(es.managerRating) ==> r == es.managerRating
    ensures !Truthy(es.managerRating) ==> r == es.selfRating
  {
    OrElse(es.managerRating, es.selfRating)
  }

  /** `employeeSkillMap` after the `forEach` over `held`: a later record for the same
      skill overwrites an earlier one. */
  function RatingMap(held: seq<EmployeeSkill>): (m: map<int, Option<int>>)
    ensures forall k :: k in m <==> exists i :: 0 <= i < |held| && held[i].skillId == k
  {
    if held == [] then map[]
    else
      var last := held[|held| - 1];
      var m := RatingMap(held[..|held| - 1])[last.skillId := RatingOf(last)];
      assert forall i :: 0 <= i < |held| - 1 ==> held[..|held| - 1][i] == held[i];
      m
  }

  /** `rating || 0`. */
  function OrZero(r: Option<int>): int {
    if Truthy(r) then r.value else 0
  }

  /** `employeeSkillMap.get(skillId) || 0`. */
  function RatingFor(m: map<int, Option<int>>, skillId: int): (r: int)
    ensures skillId !in m ==> r == 0
    ensures skillId in m ==> r == OrZero(m[skillId])
  {
    if skillId in m then OrZero(m[skillId]) else 0
  }

  /** The sum over requirements of weight times rating (`totalWeightedScore`). */
  function WeightedTotal(reqs: seq<Requirement>, m: map<int, Option<int>>): real
    requires AllScorable(reqs)
  {
    if reqs == [] then 0.0
    else
      var last := reqs[|reqs| - 1];
      WeightedTotal(reqs[..|reqs| - 1], m) + last.weight * RatingFor(m, last.skillId.value) as real
  }

  /** `skill?.name || req.skillName`. */
  function RequirementName(r: Requirement, skills: seq<Skill>): string {
    var s := if r.skillId.Some? then FindSkill(skills, r.skillId.value) else None;
    if s.Some? && s.value.name != "" then s.value.name else r.skillName
  }

  /** The names of the requirements whose skill is not in the rating map, in requirement
      order (`missingSkillNames`). */
  function MissingNames(reqs: seq<Requirement>, m: map<int, Option<int>>, skills: seq<Skill>): (r: seq<string>)
    requires AllScorable(reqs)
    ensures |r| <= |reqs|
  {
    if reqs == [] then []
    else
      var last := reqs[|reqs| - 1];
      MissingNames(reqs[..|reqs| - 1], m, skills)
      + (if last.skillId.value !in m then [RequirementName(last, skills)] else [])
  }

  /** The row computed for one employee. */
  function ScoreRow(projectId: int, reqs: seq<Requirement>, e: Employee, ratings: seq<EmployeeSkill>, skills: seq<Skill>): (row: CandidateMatch)
    requires reqs != [] && AllScorable(reqs)
    ensures row.projectId == projectId && row.employeeId == e.id
    ensures |row.missingSkills| <= |reqs|
  {
    var held := HeldRecords(ratings, e.id, RequiredIds(reqs));
    var m := RatingMap(held);
    CandidateMatch(projectId, e.id,
      WeightedTotal(reqs, m) / (|reqs| as real),
      (|held| as real / |reqs| as real) * 100.0,
      MissingNames(reqs, m, skills))
  }

  /** One row per fetched employee, in employee order. */
  function ScoreAll(projectId: int, reqs: seq<Requirement>, employees: seq<Employee>, ratings: seq<EmployeeSkill>, skills: seq<Skill>): (rows: seq<CandidateMatch>)
    requires reqs != [] && AllScorable(reqs)
    ensures |rows| == |employees|
    ensures forall i :: 0 <= i < |rows| ==> rows[i] == ScoreRow(projectId, reqs, employees[i], ratings, skills)
  {
    seq(|employees|, i requires 0 <= i < |employees| => ScoreRow(projectId, reqs, employees[i], ratings, skills))
  }

  function OtherProject(projectId: int): CandidateMatch -> bool {
    (c: CandidateMatch) => c.projectId != projectId
  }

  function OfProject(projectId: int): CandidateMatch -> bool {
    (c: CandidateMatch) => c.projectId == projectId
  }

  /** The match table after recalculating `projectId`: unchanged when the project has no
      scored requirement, otherwise its old rows deleted and the new rows appended. */
  function Recalculate(rows: seq<CandidateMatch>, projectId: int, requirements: seq<Requirement>,
                       employees: seq<Employee>, ratings: seq<EmployeeSkill>, skills: seq<Skill>): (r: seq<CandidateMatch>)
    ensures ScoredRequirements(requirements, projectId) == [] ==> r == rows
  {
    var reqs := ScoredRequirements(requirements, projectId);
    if reqs == [] then rows
    else Filter(rows, OtherProject(projectId)) + ScoreAll(projectId, reqs, employees, ratings, skills)
  }

  // ---------------------------------------------------------------------------
  // The loops of the source, proved against the functions above

  /** The `forEach` of lines 370-375 that fills `employeeSkillMap`. */
  method BuildRatingMap(held: seq<EmployeeSkill>) returns (m: map<int, Option<int>>)
    ensures m == RatingMap(held)
  {
    m := map[];
    var k := 0;
    while k < |held|
      invariant 0 <= k <= |held|
      invariant m == RatingMap(held[..k])
    {
      assert held[..k + 1][..k] == held[..k];
      m := m[held[k].skillId := RatingOf(held[k])];
      k := k + 1;
    }
    assert held[..|held|] == held;
  }

  /** The loop of lines 380-388: one `findUnique` per requirement the employee lacks. */
  method CollectMissing(reqs: seq<Requirement>, m: map<int, Option<int>>, skills: seq<Skill>) returns (missing: seq<string>)
    requires AllScorable(reqs)
    ensures missing == MissingNames(reqs, m, skills)
  {
    missing := [];
    var i := 0;
    while i < |reqs|
      invariant 0 <= i <= |reqs|
      invariant missing == MissingNames(reqs[..i], m, skills)
    {
      assert reqs[..i + 1][..i] == reqs[..i] && reqs[..i + 1][i] == reqs[i];
      if reqs[i].skillId.value !in m {
        var skill := FindSkill(skills, reqs[i].skillId.value);
        var name := if skill.Some? && skill.value.name != "" then skill.value.name else reqs[i].skillName;
        assert name == RequirementName(reqs[i], skills);
        missing := missing + [name];
      }
      i := i + 1;
    }
    assert reqs[..|reqs|] == reqs;
  }

  /** The loop of lines 391-396 accumulating `totalWeightedScore`. */
  method SumWeighted(reqs: seq<Requirement>, m: map<int, Option<int>>) returns (total: real)
    requires AllScorable(reqs)
    ensures total == WeightedTotal(reqs, m)
  {
    total := 0.0;
    var i := 0;
    while i < |reqs|
      invariant 0 <= i <= |reqs|
      invariant total == WeightedTotal(reqs[..i], m)
    {
      assert reqs[..i + 1][..i] == reqs[..i];
      var rating := if reqs[i].skillId.value in m && Truthy(m[reqs[i].skillId.value]) then m[reqs[i].skillId.value].value else 0;
      total := total + reqs[i].weight * rating as real;
      i := i + 1;
    }
    assert reqs[..|reqs|] == reqs;
  }

  /** The body of the per-employee loop (lines 368-411). */
  method ScoreEmployee(projectId: int, reqs: seq<Requirement>, e: Employee, ratings: seq<EmployeeSkill>, skills: seq<Skill>)
    returns (row: CandidateMatch)
    requires reqs != [] && AllScorable(reqs)
    ensures row == ScoreRow(projectId, reqs, e, ratings, skills)
  {
    var held := HeldRecords(ratings, e.id, RequiredIds(reqs));
    var m := BuildRatingMap(held);
    var missing := CollectMissing(reqs, m, skills);
    var total := SumWeighted(reqs, m);
    var matchedCount := |held|;
    row := CandidateMatch(projectId, e.id, total / (|reqs| as real),
                          (matchedCount as real / |reqs| as real) * 100.0, missing);
  }

  /** The loop over all employees (lines 366-412). */
  method ScoreEmployees(projectId: int, reqs: seq<Requirement>, employees: seq<Employee>,
                        ratings: seq<EmployeeSkill>, skills: seq<Skill>) returns (candidates: seq<CandidateMatch>)
    requires reqs != [] && AllScorable(reqs)
    ensures candidates == ScoreAll(projectId, reqs, employees, ratings, skills)
  {
    candidates := [];
    var i := 0;
    while i < |employees|
      invariant 0 <= i <= |employees|
      invariant |candidates| == i
      invariant forall j :: 0 <= j < i ==> candidates[j] == ScoreRow(projectId, reqs, employees[j], ratings, skills)
    {
      var row := ScoreEmployee(projectId, reqs, employees[i], ratings, skills);
      candidates := candidates + [row];
      i := i + 1;
    }
  }

  /** `calculateCandidateMatches`: nothing is written when the project has no scored
      requirement; otherwise only this project's rows are replaced, by one row per
      employee. */
  method CalculateCandidateMatches(projectId: int, requirements: seq<Requirement>, employees: seq<Employee>,
                                   ratings: seq<EmployeeSkill>, skills: seq<Skill>, matches: MatchTable)
    modifies matches
    ensures matches.rows == Recalculate(old(matches.rows), projectId, requirements, employees, ratings, skills)
  {
    var reqs := ScoredRequirements(requirements, projectId);
    if reqs == [] {
      return;
    }
    var candidates := ScoreEmployees(projectId, reqs, employees, ratings, skills);
    matches.rows := Filter(matches.rows, OtherProject(projectId)) + candidates;
  }

  // ---------------------------------------------------------------------------
  // Properties of the scoring

  /** Recalculation never touches the rows of another project. */
  lemma RecalculateKeepsOtherProjects(rows: seq<CandidateMatch>, projectId: int, requirements: seq<Requirement>,
                                      employees: seq<Employee>, ratings: seq<EmployeeSkill>, skills: seq<Skill>)
    ensures Filter(Recalculate(rows, projectId, requirements, employees, ratings, skills), OtherProject(projectId))
            == Filter(rows, OtherProject(projectId))
  {
    var reqs := ScoredRequirements(requirements, projectId);
    if reqs != [] {
      var kept := Filter(rows, OtherProject(projectId));
      var added := ScoreAll(projectId, reqs, employees, ratings, skills);
      FilterConcat(kept, added, OtherProject(projectId));
      assert forall i :: 0 <= i < |kept| ==> kept[i] in kept;
      FilterKeepsAll(kept, OtherProject(projectId));
      FilterDropsAll(added, OtherProject(projectId));
    }
  }

  /** After recalculation the project has exactly one row per employee, in employee
      order, whatever rows it had before. */
  lemma RecalculateOneRowPerEmployee(rows: seq<CandidateMatch>, projectId: int, requirements: seq<Requirement>,
                                     employees: seq<Employee>, ratings: seq<EmployeeSkill>, skills: seq<Skill>)
    requires ScoredRequirements(requirements, projectId) != []
    ensures var mine := Filter(Recalculate(rows, projectId, requirements, employees, ratings, skills), OfProject(projectId));
      && |mine| == |employees|
      && forall i :: 0 <= i < |mine| ==> mine[i].employeeId == employees[i].id
  {
    var reqs := ScoredRequirements(requirements, projectId);
    var kept := Filter(rows, OtherProject(projectId));
    var added := ScoreAll(projectId, reqs, employees, ratings, skills);
    assert Recalculate(rows, projectId, requirements, employees, ratings, skills) == kept + added;
    forall i | 0 <= i < |kept|
      ensures !OfProject(projectId)(kept[i])
    {
      assert kept[i] in kept;
    }
    forall i | 0 <= i < |added|
      ensures OfProject(projectId)(added[i]) && added[i].employeeId == employees[i].id
    {
      assert added[i] == ScoreRow(projectId, reqs, employees[i], ratings, skills);
    }
    OnlyTheAddedRows(kept, added, OfProject(projectId));
  }

  /** Filtering the kept rows followed by the added ones, when the filter rejects every
      kept row and accepts every added one, gives the added rows. */
  lemma OnlyTheAddedRows(kept: seq<CandidateMatch>, added: seq<CandidateMatch>, p: CandidateMatch -> bool)
    requires forall i :: 0 <= i < |kept| ==> !p(kept[i])
    requires forall i :: 0 <= i < |added| ==> p(added[i])
    ensures Filter(kept + added, p) == added
  {
    FilterConcat(kept, added, p);
    FilterDropsAll(kept, p);
    FilterKeepsAll(added, p);
  }

  predicate UniqueRatings(rows: seq<EmployeeSkill>) {
    forall i, j :: 0 <= i < j < |rows| ==>
      rows[i].employeeId != rows[j].employeeId || rows[i].skillId != rows[j].skillId
  }

  function SkillIdsOf(s: seq<EmployeeSkill>): (r: set<int>)
    ensures forall k :: k in r <==> exists i :: 0 <= i < |s| && s[i].skillId == k
  {
    if s == [] then {}
    else
      var r := {s[0].skillId} + SkillIdsOf(s[1..]);
      assert forall i :: 1 <= i < |s| ==> s[1..][i - 1] == s[i];
      r
  }

  /** With one record per (employee, skill), the held records have distinct skills, all
      of them required. */
  lemma {:induction false} HeldSkillsDistinct(ratings: seq<EmployeeSkill>, employeeId: int, ids: seq<int>)
    requires UniqueRatings(ratings)
    ensures var held := HeldRecords(ratings, employeeId, ids);
      |held| == |SkillIdsOf(held)| && SkillIdsOf(held) <= set x | x in ids
  {
    if ratings != [] {
      var rest := ratings[1..];
      UniqueTail(ratings);
      HeldSkillsDistinct(rest, employeeId, ids);
      var x := ratings[0];
      var heldRest := HeldRecords(rest, employeeId, ids);
      if Held(employeeId, ids, x) {
        var held := HeldRecords(ratings, employeeId, ids);
        assert held == [x] + heldRest;
        assert held[1..] == heldRest;
        FirstNotHeldAgain(ratings, employeeId, ids);
        assert SkillIdsOf(held) == {x.skillId} + SkillIdsOf(heldRest);
      } else {
        assert HeldRecords(ratings, employeeId, ids) == heldRest;
      }
    }
  }

  lemma UniqueTail(ratings: seq<EmployeeSkill>)
    requires UniqueRatings(ratings) && ratings != []
    ensures UniqueRatings(ratings[1..])
  {
    var rest := ratings[1..];
    forall i, j | 0 <= i < j < |rest|
      ensures rest[i].employeeId != rest[j].employeeId || rest[i].skillId != rest[j].skillId
    {
      assert rest[i] == ratings[i + 1] && rest[j] == ratings[j + 1];
    }
  }

  /** A held first record's skill is not held again further on. */
  lemma FirstNotHeldAgain(ratings: seq<EmployeeSkill>, employeeId: int, ids: seq<int>)
    requires UniqueRatings(ratings) && ratings != [] && Held(employeeId, ids, ratings[0])
    ensures ratings[0].skillId !in SkillIdsOf(HeldRecords(ratings[1..], employeeId, ids))
  {
    var rest := ratings[1..];
    var heldRest := HeldRecords(rest, employeeId, ids);
    forall i | 0 <= i < |heldRest|
      ensures heldRest[i].skillId != ratings[0].skillId
    {
      var y := heldRest[i];
      assert y in heldRest;
      assert y in rest && Held(employeeId, ids, y);
      var j :| 0 <= j < |rest| && rest[j] == y;
      assert ratings[j + 1] == y;
    }
  }

  /** With one record per (employee, skill) the match percentage lies in [0, 100], even
      when several requirements name the same skill. */
  lemma MatchPercentageBounds(projectId: int, reqs: seq<Requirement>, e: Employee, ratings: seq<EmployeeSkill>, skills: seq<Skill>)
    requires reqs != [] && AllScorable(reqs)
    requires UniqueRatings(ratings)
    ensures 0.0 <= ScoreRow(projectId, reqs, e, ratings, skills).matchPercentage <= 100.0
  {
    var ids := RequiredIds(reqs);
    var held := HeldRecords(ratings, e.id, ids);
    HeldSkillsDistinct(ratings, e.id, ids);
    SetSizeIsDistinctLength(ids);
    SubsetCardinality(SkillIdsOf(held), set x | x in ids);
    Percentage(|held|, |reqs|);
  }

  lemma Percentage(h: nat, n: nat)
    requires 0 < n && h <= n
    ensures 0.0 <= (h as real / n as real) * 100.0 <= 100.0
  {
    assert h as real / n as real <= 1.0;
  }

  lemma {:induction false} NothingHeldTotalsZero(reqs: seq<Requirement>)
    requires AllScorable(reqs)
    ensures WeightedTotal(reqs, map[]) == 0.0
  {
    if reqs != [] {
      NothingHeldTotalsZero(reqs[..|reqs| - 1]);
    }
  }

  lemma {:induction false} NothingHeldAllMissing(reqs: seq<Requirement>, skills: seq<Skill>)
    requires AllScorable(reqs)
    ensures MissingNames(reqs, map[], skills) == seq(|reqs|, i requires 0 <= i < |reqs| => RequirementName(reqs[i], skills))
  {
    if reqs != [] {
      var init := reqs[..|reqs| - 1];
      NothingHeldAllMissing(init, skills);
      var names := seq(|reqs|, i requires 0 <= i < |reqs| => RequirementName(reqs[i], skills));
      assert names == seq(|init|, i requires 0 <= i < |init| => RequirementName(init[i], skills))
                      + [RequirementName(reqs[|reqs| - 1], skills)];
    }
  }

  /** An employee without an approved rating for any required skill scores 0 on both
      measures and lacks every requirement, listed in requirement order. */
  lemma NothingHeldScoresZero(projectId: int, reqs: seq<Requirement>, e: Employee, ratings: seq<EmployeeSkill>, skills: seq<Skill>)
    requires reqs != [] && AllScorable(reqs)
    requires forall i :: 0 <= i < |ratings| ==> !Held(e.id, RequiredIds(reqs), ratings[i])
    ensures var row := ScoreRow(projectId, reqs, e, ratings, skills);
      && row.skillIndex == 0.0
      && row.matchPercentage == 0.0
      && row.missingSkills == seq(|reqs|, i requires 0 <= i < |reqs| => RequirementName(reqs[i], skills))
  {
    FilterDropsAll(ratings, HeldBy(e.id, RequiredIds(reqs)));
    assert RatingMap([]) == map[];
    NothingHeldTotalsZero(reqs);
    NothingHeldAllMissing(reqs, skills);
  }

  // ---------------------------------------------------------------------------
  // The scores read off the ratings table directly

  /** An APPROVED record of this employee for this skill. */
  predicate ApprovedFor(employeeId: int, skillId: int, es: EmployeeSkill) {
    es.employeeId == employeeId && es.skillId == skillId && es.managerStatus == Approved
  }

  predicate HasApproved(ratings: seq<EmployeeSkill>, employeeId: int, skillId: int) {
    exists i :: 0 <= i < |ratings| && ApprovedFor(employeeId, skillId, ratings[i])
  }

  /** The rating the scoring uses for one skill: that of the employee's last APPROVED
      record of it (`managerRating || selfRating || 0`), or 0 without one. */
  function ApprovedRating(ratings: seq<EmployeeSkill>, employeeId: int, skillId: int): int {
    if ratings == [] then 0
    else if ApprovedFor(employeeId, skillId, ratings[|ratings| - 1]) then OrZero(RatingOf(ratings[|ratings| - 1]))
    else ApprovedRating(ratings[..|ratings| - 1], employeeId, skillId)
  }

  /** `ApprovedRating` is 0 without an approved record, and otherwise the rating of the last
      approved record, whatever came before it. */
  lemma {:induction false} ApprovedRatingIsLastRecord(ratings: seq<EmployeeSkill>, employeeId: int, skillId: int)
    ensures !HasApproved(ratings, employeeId, skillId) ==> ApprovedRating(ratings, employeeId, skillId) == 0
    ensures forall i :: (0 <= i < |ratings| && ApprovedFor(employeeId, skillId, ratings[i])
                         && forall j :: i < j < |ratings| ==> !ApprovedFor(employeeId, skillId, ratings[j]))
                        ==> ApprovedRating(ratings, employeeId, skillId) == OrZero(RatingOf(ratings[i]))
  {
    if ratings != [] {
      var init := ratings[..|ratings| - 1];
      ApprovedRatingIsLastRecord(init, employeeId, skillId);
      assert forall i :: 0 <= i < |init| ==> init[i] == ratings[i];
    }
  }

  /** The sum over the requirements of weight times `ApprovedRating`. */
  function WeightedRatings(reqs: seq<Requirement>, ratings: seq<EmployeeSkill>, employeeId: int): real
    requires AllScorable(reqs)
  {
    if reqs == [] then 0.0
    else
      var last := reqs[|reqs| - 1];
      WeightedRatings(reqs[..|reqs| - 1], ratings, employeeId)
      + last.weight * ApprovedRating(ratings, employeeId, last.skillId.value) as real
  }

  /** A requirement whose skill the employee has no approved record of. */
  function Lacking(ratings: seq<EmployeeSkill>, employeeId: int): Requirement -> bool {
    (q: Requirement) => q.skillId.Some? && !HasApproved(ratings, employeeId, q.skillId.value)
  }

  /** A requirement whose skill is not a key of the rating map. */
  function Unrated(m: map<int, Option<int>>): Requirement -> bool {
    (q: Requirement) => q.skillId.Some? && q.skillId.value !in m
  }

  function NameIn(skills: seq<Skill>): Requirement -> string {
    (q: Requirement) => RequirementName(q, skills)
  }

  /** The missing names are the names of the unrated requirements, in requirement order. */
  lemma {:induction false} MissingNamesAreUnrated(reqs: seq<Requirement>, m: map<int, Option<int>>, skills: seq<Skill>)
    requires AllScorable(reqs)
    ensures MissingNames(reqs, m, skills) == Mapped(Filter(reqs, Unrated(m)), NameIn(skills))
  {
    if reqs != [] {
      var init := reqs[..|reqs| - 1];
      var last := reqs[|reqs| - 1];
      MissingNamesAreUnrated(init, m, skills);
      FrontLast(reqs);
      var missing := if last.skillId.value !in m then [RequirementName(last, skills)] else [];
      assert MissingNames(reqs, m, skills) == MissingNames(init, m, skills) + missing;
      var tail := if Unrated(m)(last) then [last] else [];
      FilterSnoc(init, last, Unrated(m));
      assert Filter(reqs, Unrated(m)) == Filter(init, Unrated(m)) + tail;
      MappedConcat(Filter(init, Unrated(m)), tail, NameIn(skills));
      UnratedLastName(last, m, skills);
    }
  }

  lemma UnratedLastName(last: Requirement, m: map<int, Option<int>>, skills: seq<Skill>)
    requires last.skillId.Some?
    ensures Mapped(if Unrated(m)(last) then [last] else [], NameIn(skills))
            == if last.skillId.value !in m then [RequirementName(last, skills)] else []
  {
  }

  /** The rating map built from the held records gives every required skill the rating of
      the employee's last approved record of it, and has the skill as a key exactly when
      there is such a record. */
  lemma {:induction false} RatingForIsApprovedRating(ratings: seq<EmployeeSkill>, employeeId: int, ids: seq<int>, k: int)
    requires k in ids
    ensures var m := RatingMap(HeldRecords(ratings, employeeId, ids));
      && (k in m <==> HasApproved(ratings, employeeId, k))
      && RatingFor(m, k) == ApprovedRating(ratings, employeeId, k)
  {
    if ratings != [] {
      var init := ratings[..|ratings| - 1];
      var x := ratings[|ratings| - 1];
      RatingForIsApprovedRating(init, employeeId, ids, k);
      HeldRatingMapSnoc(init, x, employeeId, ids);
      assert ratings == init + [x];
      var m0 := RatingMap(HeldRecords(init, employeeId, ids));
      var m := RatingMap(HeldRecords(ratings, employeeId, ids));
      if ApprovedFor(employeeId, k, x) {
        assert m == m0[k := RatingOf(x)];
        assert HasApproved(ratings, employeeId, k) by { assert ApprovedFor(employeeId, k, ratings[|ratings| - 1]); }
      } else {
        assert k in m <==> k in m0;
        assert k in m ==> m[k] == m0[k];
        HasApprovedSnoc(init, x, employeeId, k);
      }
    }
  }

  lemma HeldRatingMapSnoc(init: seq<EmployeeSkill>, x: EmployeeSkill, employeeId: int, ids: seq<int>)
    ensures RatingMap(HeldRecords(init + [x], employeeId, ids))
            == if Held(employeeId, ids, x) then RatingMap(HeldRecords(init, employeeId, ids))[x.skillId := RatingOf(x)]
               else RatingMap(HeldRecords(init, employeeId, ids))
  {
    var h := HeldRecords(init, employeeId, ids);
    FilterSnoc(init, x, HeldBy(employeeId, ids));
    assert HeldBy(employeeId, ids)(x) == Held(employeeId, ids, x);
    if Held(employeeId, ids, x) {
      var hx := h + [x];
      assert HeldRecords(init + [x], employeeId, ids) == hx;
      assert hx[..|hx| - 1] == h && hx[|hx| - 1] == x;
      assert RatingMap(hx) == RatingMap(hx[..|hx| - 1])[hx[|hx| - 1].skillId := RatingOf(hx[|hx| - 1])];
    } else {
      assert HeldRecords(init + [x], employeeId, ids) == h;
    }
  }

  lemma HasApprovedSnoc(init: seq<EmployeeSkill>, x: EmployeeSkill, employeeId: int, k: int)
    requires !ApprovedFor(employeeId, k, x)
    ensures HasApproved(init + [x], employeeId, k) <==> HasApproved(init, employeeId, k)
  {
    var s := init + [x];
    if HasApproved(s, employeeId, k) {
      var i :| 0 <= i < |s| && ApprovedFor(employeeId, k, s[i]);
      assert i < |init| && init[i] == s[i];
    }
    if HasApproved(init, employeeId, k) {
      var i :| 0 <= i < |init| && ApprovedFor(employeeId, k, init[i]);
      assert s[i] == init[i];
    }
  }

  /** Lemma-level statement of lines 371-398: the skill index is the weighted sum of the
      approved ratings over the number of requirements, and the missing skills are the
      names of the requirements the employee has no approved record of, in order. */
  lemma ScoreRowMeaning(projectId: int, reqs: seq<Requirement>, e: Employee, ratings: seq<EmployeeSkill>, skills: seq<Skill>)
    requires reqs != [] && AllScorable(reqs)
    ensures var row := ScoreRow(projectId, reqs, e, ratings, skills);
      && row.skillIndex == WeightedRatings(reqs, ratings, e.id) / (|reqs| as real)
      && row.missingSkills == Mapped(Filter(reqs, Lacking(ratings, e.id)), NameIn(skills))
  {
    var ids := RequiredIds(reqs);
    var m := RatingMap(HeldRecords(ratings, e.id, ids));
    forall i | 0 <= i < |reqs|
      ensures RatingFor(m, reqs[i].skillId.value) == ApprovedRating(ratings, e.id, reqs[i].skillId.value)
      ensures Unrated(m)(reqs[i]) == Lacking(ratings, e.id)(reqs[i])
    {
      assert ids[i] == reqs[i].skillId.value;
      RatingForIsApprovedRating(ratings, e.id, ids, reqs[i].skillId.value);
    }
    WeightedTotalIsWeightedRatings(reqs, m, ratings, e.id);
    MissingNamesAreUnrated(reqs, m, skills);
    FilterAgreeing(reqs, Unrated(m), Lacking(ratings, e.id));
  }

  lemma {:induction false} WeightedTotalIsWeightedRatings(reqs: seq<Requirement>, m: map<int, Option<int>>,
                                                          ratings: seq<EmployeeSkill>, employeeId: int)
    requires AllScorable(reqs)
    requires forall i :: 0 <= i < |reqs| ==>
               RatingFor(m, reqs[i].skillId.value) == ApprovedRating(ratings, employeeId, reqs[i].skillId.value)
    ensures WeightedTotal(reqs, m) == WeightedRatings(reqs, ratings, employeeId)
  {
    if reqs != [] {
      var init := reqs[..|reqs| - 1];
      assert forall i :: 0 <= i < |init| ==> init[i] == reqs[i];
      WeightedTotalIsWeightedRatings(init, m, ratings, employeeId);
      var last := reqs[|reqs| - 1];
      var k := last.skillId.value;
      var a := RatingFor(m, k);
      assert a == ApprovedRating(ratings, employeeId, k);
      assert WeightedTotal(reqs, m) == WeightedTotal(init, m) + last.weight * a as real;
      assert WeightedRatings(reqs, ratings, employeeId) == WeightedRatings(init, ratings, employeeId) + last.weight * a as real;
    }
  }

  /** Two approved records of the same skill: the later one's rating is used, its self
      rating standing in for a missing manager rating. */
  lemma LaterRecordWins(projectId: int, req: Requirement, e: Employee, first: EmployeeSkill, second: EmployeeSkill)
    requires req.skillId == Some(1) && req.weight == 2.0
    requires ApprovedFor(e.id, 1, first) && first.managerRating == Some(5)
    requires ApprovedFor(e.id, 1, second) && second.managerRating == None && second.selfRating == Some(3)
    ensures ScoreRow(projectId, [req], e, [first, second], []).skillIndex == 6.0
    ensures ScoreRow(projectId, [req], e, [first, second], []).missingSkills == []
  {
    var ratings := [first, second];
    ScoreRowMeaning(projectId, [req], e, ratings, []);
    assert ApprovedRating(ratings, e.id, 1) == 3;
    assert WeightedRatings([req], ratings, e.id) == 6.0 by {
      assert [req][..0] == [];
    }
    assert HasApproved(ratings, e.id, 1) by { assert ApprovedFor(e.id, 1, ratings[1]); }
    assert Filter([req], Lacking(ratings, e.id)) == [] by {
      assert Filter([req], Lacking(ratings, e.id)) == Filter([req][1..], Lacking(ratings, e.id));
    }
  }
}
