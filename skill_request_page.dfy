/** The employee's skill-request page (frontend/src/app/skills/request/page.tsx): the skills
    still open for a request and the request handler. The select boxes hold a skill id
    and a level, or nothing ('' in the page). */
module SkillRequestPage {
  import opened Common
  import opened Ui

  const SELECTION_MISSING: string := "Please select both a skill and level"
  const REQUEST_FAILED: string := "Failed to submit skill request"
  const REQUEST_SENT: string := "Skill request submitted successfully!"
  const LOAD_FAILED: string := "Failed to load skills data"

  datatype SkillItem = SkillItem(id: int, name: string)

  /** One of the employee's own records, with the id of its skill. */
  datatype MySkill = MySkill(id: int, skillId: int, level: string, status: string)

  function NotRequested(mySkills: seq<MySkill>): SkillItem -> bool {
    (s: SkillItem) => forall m :: m in mySkills ==> m.skillId != s.id
  }

  /** `availableSkills` (lines 101-102): the skills whose id no own record carries, in
      catalogue order. */
  function AvailableSkills(skills: seq<SkillItem>, mySkills: seq<MySkill>): (r: seq<SkillItem>)
    ensures SubseqOf(r, skills)
    ensures forall s :: s in r <==> s in skills && forall m :: m in mySkills ==> m.skillId != s.id
  {
    FilterIsSubseq(skills, NotRequested(mySkills));
    Filter(skills, NotRequested(mySkills))
  }

  /** A skill the employee already holds a record for is never offered. */
  lemma RequestedSkillNotOffered(skills: seq<SkillItem>, mySkills: seq<MySkill>, m: MySkill)
    requires m in mySkills
    ensures forall s :: s in AvailableSkills(skills, mySkills) ==> s.id != m.skillId
  {
  }

  /** Without own records the whole catalogue is offered. */
  lemma NothingRequestedOffersAll(skills: seq<SkillItem>)
    ensures AvailableSkills(skills, []) == skills
  {
    FilterKeepsAll(skills, NotRequested([]));
  }

  datatype State = State(
    skills: seq<SkillItem>, mySkills: seq<MySkill>, selectedSkill: Option<int>, selectedLevel: string,
    error: Option<string>, success: Option<string>)

  /** `handleRequestSkill` (lines 60-82). Without both selections only the error is set and
      nothing is sent. Otherwise `(skillId, level)` is sent; on success the message is set,
      both selections are cleared and the lists reloaded (a failed reload sets its own
      error); on failure the error is the server's message or the fallback. */
  function HandleRequestSkill(st: State, result: CallResult, reload: Reply<(seq<SkillItem>, seq<MySkill>)>)
    : (r: (State, Option<(int, string)>))
    ensures st.selectedSkill.None? || st.selectedLevel == "" ==>
              r == (st.(error := Some(SELECTION_MISSING)), None)
    ensures st.selectedSkill.Some? && st.selectedLevel != "" ==>
              r.1 == Some((st.selectedSkill.value, st.selectedLevel))
    ensures st.selectedSkill.Some? && st.selectedLevel != "" && result.Succeeded? ==>
              && r.0.success == Some(REQUEST_SENT)
              && r.0.selectedSkill.None? && r.0.selectedLevel == ""
              && (reload.Replied? ==>
                    r.0.skills == reload.value.0 && r.0.mySkills == reload.value.1 && r.0.error.None?)
              && (reload.Failed? ==>
                    r.0.skills == st.skills && r.0.mySkills == st.mySkills && r.0.error == Some(LOAD_FAILED))
    ensures st.selectedSkill.Some? && st.selectedLevel != "" && result.CallFailed? ==>
              r.0 == st.(error := Some(FailureText(result.message, REQUEST_FAILED)))
  {
    if st.selectedSkill.None? || st.selectedLevel == "" then (st.(error := Some(SELECTION_MISSING)), None)
    else
      var sent := Some((st.selectedSkill.value, st.selectedLevel));
      match result
      case CallFailed(message) => (st.(error := Some(FailureText(message, REQUEST_FAILED))), sent)
      case Succeeded =>
        var cleared := st.(error := None, success := Some(REQUEST_SENT), selectedSkill := None, selectedLevel := "");
        match reload
        case Replied(lists) => (cleared.(skills := lists.0, mySkills := lists.1), sent)
        case Failed(_) => (cleared.(error := Some(LOAD_FAILED)), sent)
  }
}
