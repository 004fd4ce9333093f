/** Project creation (Backend/src/controllers/projectController.js:236-329): the guard
    chain of `createProject`, the split of the suggested skills into matched and missing
    (the same loop as lines 114-136 of `analyzeProject`), the stored requirement rows and
    the recalculation of candidate matches that follows. */
module ProjectCreation {
  import opened Common
  import opened Store
  import opened GeminiService
  import opened CandidateMatching

  /** One element of `requiredSkills` (or of the validated AI reply). */
  datatype SkillInput = SkillInput(skillName: string, weight: real)

  /** An entry of `matchedSkills` / `missingSkills`. */
  datatype Draft = Draft(skillId: Option<int>, skillName: string, originalName: string, weight: real, isMissing: bool)

  /** The matcher the controller applies, as a function value. */
  function Matcher(db: seq<DbSkill>): string -> Option<DbSkill> {
    q => MatchSkillToDatabase(q, db)
  }

  /** The entry pushed for one suggested skill, given what the matcher returned for it. */
  function Classify(s: SkillInput, m: string -> Option<DbSkill>): (d: Draft)
    ensures d.originalName == s.skillName && d.weight == s.weight
    ensures d.isMissing <==> d.skillId.None?
    ensures d.isMissing <==> m(s.skillName).None?
    ensures !d.isMissing ==> d.skillId == Some(m(s.skillName).value.id) && d.skillName == m(s.skillName).value.name
    ensures d.isMissing ==> d.skillName == s.skillName
  {
    match m(s.skillName)
    case Some(hit) => Draft(Some(hit.id), hit.name, s.skillName, s.weight, false)
    case None => Draft(None, s.skillName, s.skillName, s.weight, true)
  }

  function IsMatchedBy(m: string -> Option<DbSkill>): SkillInput -> bool {
    (s: SkillInput) => m(s.skillName).Some?
  }

  function Drafts(skills: seq<SkillInput>, m: string -> Option<DbSkill>): (r: seq<Draft>)
    ensures |r| == |skills|
    ensures forall i :: 0 <= i < |r| ==> r[i] == Classify(skills[i], m)
  {
    seq(|skills|, i requires 0 <= i < |skills| => Classify(skills[i], m))
  }

  /** `matchedSkills`: the matched inputs, in input order. */
  function MatchedPart(skills: seq<SkillInput>, m: string -> Option<DbSkill>): seq<Draft> {
    Drafts(Filter(skills, IsMatchedBy(m)), m)
  }

  /** `missingSkills`: the unmatched inputs, in input order. */
  function MissingPart(skills: seq<SkillInput>, m: string -> Option<DbSkill>): seq<Draft> {
    Drafts(Filter(skills, Not(IsMatchedBy(m))), m)
  }

  lemma DraftsSnoc(skills: seq<SkillInput>, s: SkillInput, m: string -> Option<DbSkill>)
    ensures Drafts(skills + [s], m) == Drafts(skills, m) + [Classify(s, m)]
  {
  }

  /** One more suggested skill extends exactly one of the two lists by its entry. */
  lemma PartitionStep(skills: seq<SkillInput>, i: nat, m: string -> Option<DbSkill>)
    requires i < |skills|
    ensures MatchedPart(skills[..i + 1], m)
            == MatchedPart(skills[..i], m) + (if m(skills[i].skillName).Some? then [Classify(skills[i], m)] else [])
    ensures MissingPart(skills[..i + 1], m)
            == MissingPart(skills[..i], m) + (if m(skills[i].skillName).None? then [Classify(skills[i], m)] else [])
  {
    assert skills[..i + 1] == skills[..i] + [skills[i]];
    MatchedSnoc(skills[..i], skills[i], m);
    MissingSnoc(skills[..i], skills[i], m);
  }

  lemma MatchedSnoc(p: seq<SkillInput>, s: SkillInput, m: string -> Option<DbSkill>)
    ensures MatchedPart(p + [s], m) == MatchedPart(p, m) + (if m(s.skillName).Some? then [Classify(s, m)] else [])
  {
    FilterSnoc(p, s, IsMatchedBy(m));
    DraftsSnoc(Filter(p, IsMatchedBy(m)), s, m);
  }

  lemma MissingSnoc(p: seq<SkillInput>, s: SkillInput, m: string -> Option<DbSkill>)
    ensures MissingPart(p + [s], m) == MissingPart(p, m) + (if m(s.skillName).None? then [Classify(s, m)] else [])
  {
    FilterSnoc(p, s, Not(IsMatchedBy(m)));
    DraftsSnoc(Filter(p, Not(IsMatchedBy(m))), s, m);
  }

  /** The partition loop (lines 261-281 and 114-136). */
  method PartitionSkills(skills: seq<SkillInput>, m: string -> Option<DbSkill>) returns (matched: seq<Draft>, missing: seq<Draft>)
    ensures matched == MatchedPart(skills, m)
    ensures missing == MissingPart(skills, m)
  {
    matched := [];
    missing := [];
    var i := 0;
    while i < |skills|
      invariant 0 <= i <= |skills|
      invariant matched == MatchedPart(skills[..i], m)
      invariant missing == MissingPart(skills[..i], m)
    {
      PartitionStep(skills, i, m);
      var d := Classify(skills[i], m);
      if !d.isMissing {
        matched := matched + [d];
      } else {
        missing := missing + [d];
      }
      i := i + 1;
    }
    assert skills[..|skills|] == skills;
  }

  /** Every suggested skill lands in exactly one of the two lists: the matched entries
      carry the id and name of the skill the matcher found, the missing entries carry no
      id and keep the suggested name. */
  lemma PartitionIsExact(skills: seq<SkillInput>, m: string -> Option<DbSkill>)
    ensures |MatchedPart(skills, m)| + |MissingPart(skills, m)| == |skills|
    ensures forall d :: d in MatchedPart(skills, m) ==> d.skillId.Some? && !d.isMissing
    ensures forall d :: d in MissingPart(skills, m) ==> d.skillId.None? && d.isMissing && d.skillName == d.originalName
    ensures forall s :: s in skills && m(s.skillName).Some? ==> Classify(s, m) in MatchedPart(skills, m)
    ensures forall s :: s in skills && m(s.skillName).None? ==> Classify(s, m) in MissingPart(skills, m)
  {
    FilterSplit(skills, IsMatchedBy(m));
    MatchedEntries(skills, m);
    MissingEntries(skills, m);
  }

  lemma MatchedEntries(skills: seq<SkillInput>, m: string -> Option<DbSkill>)
    ensures forall d :: d in MatchedPart(skills, m) ==> d.skillId.Some? && !d.isMissing
    ensures forall s :: s in skills && m(s.skillName).Some? ==> Classify(s, m) in MatchedPart(skills, m)
  {
    var hits := Filter(skills, IsMatchedBy(m));
    forall d | d in MatchedPart(skills, m)
      ensures d.skillId.Some? && !d.isMissing
    {
      var i :| 0 <= i < |hits| && d == Classify(hits[i], m);
      assert hits[i] in hits;
    }
    forall s | s in skills && m(s.skillName).Some?
      ensures Classify(s, m) in MatchedPart(skills, m)
    {
      assert s in hits;
      var i :| 0 <= i < |hits| && hits[i] == s;
      assert MatchedPart(skills, m)[i] == Classify(s, m);
    }
  }

  lemma MissingEntries(skills: seq<SkillInput>, m: string -> Option<DbSkill>)
    ensures forall d :: d in MissingPart(skills, m) ==> d.skillId.None? && d.isMissing && d.skillName == d.originalName
    ensures forall s :: s in skills && m(s.skillName).None? ==> Classify(s, m) in MissingPart(skills, m)
  {
    var misses := Filter(skills, Not(IsMatchedBy(m)));
    forall d | d in MissingPart(skills, m)
      ensures d.skillId.None? && d.isMissing && d.skillName == d.originalName
    {
      var i :| 0 <= i < |misses| && d == Classify(misses[i], m);
      assert misses[i] in misses;
    }
    forall s | s in skills && m(s.skillName).None?
      ensures Classify(s, m) in MissingPart(skills, m)
    {
      assert s in misses;
      var i :| 0 <= i < |misses| && misses[i] == s;
      assert MissingPart(skills, m)[i] == Classify(s, m);
    }
  }

  /** With the controller's matcher, every matched entry names a skill of the catalogue. */
  lemma MatchedEntriesAreCatalogued(skills: seq<SkillInput>, db: seq<DbSkill>)
    ensures forall d :: d in MatchedPart(skills, Matcher(db)) ==> d.skillId.Some? && DbSkill(d.skillId.value, d.skillName) in db
  {
    var hits := Filter(skills, IsMatchedBy(Matcher(db)));
    forall d | d in MatchedPart(skills, Matcher(db))
      ensures d.skillId.Some? && DbSkill(d.skillId.value, d.skillName) in db
    {
      var i :| 0 <= i < |hits| && d == Classify(hits[i], Matcher(db));
      assert hits[i] in hits;
      assert Matcher(db)(hits[i].skillName).Some?;
    }
  }

  /** The `skillRequirements.create` rows: matched first, then missing, with consecutive
      fresh ids. */
  function StoredRequirements(projectId: int, firstId: int, drafts: seq<Draft>): (r: seq<Requirement>)
    ensures |r| == |drafts|
    ensures forall i :: 0 <= i < |r| ==>
              r[i] == Requirement(firstId + i, projectId, drafts[i].skillId, drafts[i].originalName,
                                  drafts[i].weight, drafts[i].isMissing)
  {
    seq(|drafts|, i requires 0 <= i < |drafts| =>
      Requirement(firstId + i, projectId, drafts[i].skillId, drafts[i].originalName, drafts[i].weight, drafts[i].isMissing))
  }

  /** The stored requirement rows, one per suggested skill: the matched ones first (with
      a catalogue id, not missing), then the missing ones (no id, missing), ids consecutive
      from `firstId`, all attached to the project. */
  lemma StoredRequirementsShape(projectId: int, firstId: int, skills: seq<SkillInput>, m: string -> Option<DbSkill>)
    ensures var rows := StoredRequirements(projectId, firstId, MatchedPart(skills, m) + MissingPart(skills, m));
      var k := |MatchedPart(skills, m)|;
      && |rows| == |skills|
      && (forall i :: 0 <= i < |rows| ==> rows[i].projectId == projectId && rows[i].id == firstId + i)
      && (forall i :: 0 <= i < k ==> rows[i].skillId.Some? && !rows[i].isMissing)
      && (forall i :: k <= i < |rows| ==> rows[i].skillId.None? && rows[i].isMissing)
  {
    PartitionIsExact(skills, m);
    var matched := MatchedPart(skills, m);
    var missing := MissingPart(skills, m);
    var drafts := matched + missing;
    forall i | 0 <= i < |drafts|
      ensures i < |matched| ==> drafts[i].skillId.Some? && !drafts[i].isMissing
      ensures |matched| <= i ==> drafts[i].skillId.None? && drafts[i].isMissing
    {
      if i < |matched| {
        assert drafts[i] == matched[i] && matched[i] in matched;
      } else {
        assert drafts[i] == missing[i - |matched|] && missing[i - |matched|] in missing;
      }
    }
  }

  /** `skill.findMany({ select: { id, name } })`. */
  function CatalogueView(catalogue: seq<Skill>): (r: seq<DbSkill>)
    ensures |r| == |catalogue|
    ensures forall i :: 0 <= i < |r| ==> r[i] == DbSkill(catalogue[i].id, catalogue[i].name)
  {
    seq(|catalogue|, i requires 0 <= i < |catalogue| => DbSkill(catalogue[i].id, catalogue[i].name))
  }

  /** The request body of `createProject`; `requiredSkills` is None when it is not an array. */
  datatype ProjectBody = ProjectBody(name: Option<string>, description: Option<string>, requiredSkills: Option<seq<SkillInput>>)

  /** The guard chain of lines 239-254: the error status, or None when creation proceeds. */
  function CreateProjectCheck(user: Option<Payload>, body: ProjectBody): (r: Option<int>)
    ensures r == Some(401) <==> user.None? || (!Truthy(user.value.id) && !Truthy(user.value.userId))
    ensures r == Some(400) <==>
              user.Some? && (Truthy(user.value.id) || Truthy(user.value.userId))
              && (!Present(body.name) || !Present(body.description)
                  || body.requiredSkills.None? || body.requiredSkills.value == [])
    ensures r.None? ==> ActingUserId(user.value).Some?
  {
    if user.None? || (!Truthy(user.value.id) && !Truthy(user.value.userId)) then Some(401)
    else if !Present(body.name) || !Present(body.description) then Some(400)
    else if body.requiredSkills.None? || body.requiredSkills.value == [] then Some(400)
    else None
  }

  /** A request that misses both the user and the fields is refused as unauthorised: the
      401 check comes first, then the name/description check, then the skills check. */
  lemma CreateProjectCheckOrder(user: Option<Payload>, body: ProjectBody)
    ensures user.None? ==> CreateProjectCheck(user, body) == Some(401)
    ensures CreateProjectCheck(user, body) != Some(401) && !Present(body.name) ==> CreateProjectCheck(user, body) == Some(400)
  {
  }

  /** `project.create`: the row gets the next id. */
  method InsertProject(projects: ProjectTable, name: string, description: string, createdBy: int, status: string)
    returns (id: int)
    requires projects.Valid()
    modifies projects
    ensures projects.Valid()
    ensures id == old(projects.nextId)
    ensures projects.rows == old(projects.rows) + [Project(id, name, description, createdBy, status)]
  {
    id := projects.nextId;
    projects.rows := projects.rows + [Project(id, name, description, createdBy, status)];
    projects.nextId := projects.nextId + 1;
  }

  /** The `projectSkillRequirement.create` calls, one per entry, in order. */
  method InsertRequirements(requirements: RequirementTable, projectId: int, drafts: seq<Draft>)
    requires requirements.Valid()
    modifies requirements
    ensures requirements.Valid()
    ensures requirements.rows == old(requirements.rows) + StoredRequirements(projectId, old(requirements.nextId), drafts)
  {
    var stored := StoredRequirements(projectId, requirements.nextId, drafts);
    requirements.rows := requirements.rows + stored;
    requirements.nextId := requirements.nextId + |stored|;
  }

  /** `createProject`: on success the project is stored as OPEN with its requirement rows
      (matched then missing) and the candidate matches are recalculated; on any refusal
      nothing changes. */
  method CreateProject(user: Option<Payload>, body: ProjectBody, catalogue: seq<Skill>,
                       employees: seq<Employee>, ratings: seq<EmployeeSkill>,
                       projects: ProjectTable, requirements: RequirementTable, matches: MatchTable)
    returns (code: int)
    requires projects.Valid() && requirements.Valid()
    modifies projects, requirements, matches
    ensures projects.Valid() && requirements.Valid()
    ensures CreateProjectCheck(user, body).Some? ==>
              code == CreateProjectCheck(user, body).value
              && projects.rows == old(projects.rows) && requirements.rows == old(requirements.rows)
              && matches.rows == old(matches.rows)
    ensures CreateProjectCheck(user, body).None? ==>
              var m := Matcher(CatalogueView(catalogue));
              var skills := body.requiredSkills.value;
              var pid := old(projects.nextId);
              && code == 201
              && projects.rows == old(projects.rows)
                   + [Project(pid, body.name.value, body.description.value, ActingUserId(user.value).value, "OPEN")]
              && requirements.rows == old(requirements.rows)
                   + StoredRequirements(pid, old(requirements.nextId), MatchedPart(skills, m) + MissingPart(skills, m))
              && matches.rows == Recalculate(old(matches.rows), pid, requirements.rows, employees, ratings, catalogue)
  {
    var check := CreateProjectCheck(user, body);
    if check.Some? {
      return check.value;
    }
    var matched, missing := PartitionSkills(body.requiredSkills.value, Matcher(CatalogueView(catalogue)));
    var pid := InsertProject(projects, body.name.value, body.description.value, ActingUserId(user.value).value, "OPEN");
    InsertRequirements(requirements, pid, matched + missing);
    CalculateCandidateMatches(pid, requirements.rows, employees, ratings, catalogue, matches);
    code := 201;
  }
}
