/** The HR page that generates a project with the AI service and then creates it
    (frontend/src/app/hr/projects/create/page.tsx). The page's state is an object; the
    generated skills are objects too, because `updateSkillWeight` copies the list and then
    writes the weight into the shared element, which the AI response still holds. The two
    API calls are parameters. */
module CreateProjectPage {
  import opened Common
  import opened Ui

  const PROMPT_MISSING: string := "Please enter a project description"
  const GENERATE_FAILED: string := "Failed to generate project"
  const FIELDS_MISSING: string := "Please fill in project name and description"
  const SKILLS_MISSING: string := "Please add at least one required skill"
  const CREATE_FAILED: string := "Failed to create project"

  /** One generated skill as the page holds it. */
  class SkillEntry {
    var skillName: string
    var category: string
    var weight: int

    constructor (skillName: string, category: string, weight: int)
      ensures this.skillName == skillName && this.category == category && this.weight == weight
    {
      this.skillName := skillName;
      this.category := category;
      this.weight := weight;
    }
  }

  datatype AIResponse = AIResponse(projectName: string, description: string, requiredSkills: seq<SkillEntry>)

  /** A skill as it is sent in the create request. */
  datatype SkillValue = SkillValue(skillName: string, category: string, weight: int)

  datatype CreateRequest = CreateRequest(name: string, description: string, requiredSkills: seq<SkillValue>)

  /** `Math.max(1, Math.min(10, w))`. */
  function ClampWeight(w: int): (r: int)
    ensures 1 <= r <= 10
    ensures r == w <==> 1 <= w <= 10
    ensures w < 1 ==> r == 1
    ensures w > 10 ==> r == 10
  {
    if w < 1 then 1 else if w > 10 then 10 else w
  }

  /** The refusal of `handleCreateProject` (lines 71-79): the name and description are
      checked before the skill count. */
  function CreateRefusal(name: string, description: string, count: nat): (r: Option<string>)
    ensures name == "" || description == "" ==> r == Some(FIELDS_MISSING)
    ensures r == Some(SKILLS_MISSING) <==> name != "" && description != "" && count == 0
    ensures r.None? <==> name != "" && description != "" && count > 0
  {
    if name == "" || description == "" then Some(FIELDS_MISSING)
    else if count == 0 then Some(SKILLS_MISSING)
    else None
  }

  /** What `handleGenerate` sends (lines 43-47): nothing for a blank prompt, otherwise the
      trimmed prompt. */
  function GenerateRequest(prompt: string): (r: Option<string>)
    ensures r.None? <==> AllSpace(prompt)
    ensures r.Some? ==> r.value == Trim(prompt) && r.value != ""
  {
    var trimmed := Trim(prompt);
    if trimmed == "" then None else Some(trimmed)
  }

  class Page {
    var prompt: string
    var error: Option<string>
    var aiResponse: Option<AIResponse>
    var name: string
    var description: string
    var skills: seq<SkillEntry>
    var success: bool
    var generating: bool
    var loading: bool

    constructor ()
      ensures prompt == "" && error.None? && aiResponse.None? && name == "" && description == ""
      ensures skills == [] && !success && !generating && !loading
    {
      prompt := "";
      error := None;
      aiResponse := None;
      name := "";
      description := "";
      skills := [];
      success := false;
      generating := false;
      loading := false;
    }

    /** The skills as the create request carries them. */
    function Values(): (r: seq<SkillValue>)
      reads this, skills
      ensures |r| == |skills|
      ensures forall i :: 0 <= i < |r| ==>
                r[i] == SkillValue(skills[i].skillName, skills[i].category, skills[i].weight)
    {
      seq(|skills|, i reads this, skills requires 0 <= i < |skills| =>
        SkillValue(skills[i].skillName, skills[i].category, skills[i].weight))
    }

    /** `handleGenerate` (lines 42-68): a blank prompt only sets the error; otherwise the
        trimmed prompt is sent, and the reply seeds the name, description and skills, or
        its failure sets the error with the response cleared. */
    method HandleGenerate(api: string -> Reply<AIResponse>) returns (sent: Option<string>)
      modifies this
      ensures sent == GenerateRequest(old(prompt))
      ensures sent.Some? ==> !generating
      ensures sent.None? ==>
                && error == Some(PROMPT_MISSING)
                && aiResponse == old(aiResponse) && skills == old(skills) && name == old(name)
                && description == old(description) && generating == old(generating)
      ensures sent.Some? ==> ShowsReply(api(sent.value), old(skills), old(name), old(description))
      ensures prompt == old(prompt) && success == old(success) && loading == old(loading)
    {
      sent := GenerateRequest(prompt);
      if sent.None? {
        error := Some(PROMPT_MISSING);
      } else {
        TakeReply(api(sent.value));
      }
    }

    /** The page after the generate call (lines 56-67): a reply is held and seeds the
        name, description and skills; a failure clears the held response, sets the error
        and keeps the name, description and skills that were there before. */
    predicate ShowsReply(reply: Reply<AIResponse>, before: seq<SkillEntry>, nameBefore: string,
                         descriptionBefore: string)
      reads this
    {
      match reply
      case Replied(value) =>
        && aiResponse == Some(value) && error.None?
        && name == value.projectName && description == value.description
        && skills == value.requiredSkills
      case Failed(message) =>
        && aiResponse.None? && error == Some(FailureText(message, GENERATE_FAILED))
        && skills == before && name == nameBefore && description == descriptionBefore
    }

    /** The part of `handleGenerate` after the call (lines 56-67). */
    method TakeReply(reply: Reply<AIResponse>)
      modifies this
      ensures ShowsReply(reply, old(skills), old(name), old(description))
      ensures !generating && prompt == old(prompt) && success == old(success) && loading == old(loading)
    {
      generating := true;
      error := None;
      aiResponse := None;
      if reply.Replied? {
        aiResponse := Some(reply.value);
        name := reply.value.projectName;
        description := reply.value.description;
        skills := reply.value.requiredSkills;
      } else {
        error := Some(FailureText(reply.message, GENERATE_FAILED));
      }
      generating := false;
    }

    /** `handleCreateProject` (lines 70-100): the refusals send nothing; otherwise the
        name, description and current skills are sent, and success or the error follows
        the reply. */
    method HandleCreateProject(api: CreateRequest -> CallResult) returns (sent: Option<CreateRequest>)
      modifies this
      ensures var refusal := CreateRefusal(old(name), old(description), |old(skills)|);
        && (refusal.Some? ==> sent.None? && error == refusal && success == old(success) && loading == old(loading))
        && (refusal.None? ==>
              && sent == Some(CreateRequest(old(name), old(description), old(Values())))
              && !loading
              && (api(sent.value).Succeeded? ==> success && error.None?)
              && (api(sent.value).CallFailed? ==>
                    success == old(success) && error == Some(FailureText(api(sent.value).message, CREATE_FAILED))))
      ensures prompt == old(prompt) && aiResponse == old(aiResponse) && skills == old(skills)
      ensures name == old(name) && description == old(description) && generating == old(generating)
    {
      var refusal := CreateRefusal(name, description, |skills|);
      if refusal.Some? {
        error := refusal;
        return None;
      }
      var request := CreateRequest(name, description, Values());
      loading := true;
      error := None;
      sent := Some(request);
      match api(request) {
        case Succeeded =>
          success := true;
        case CallFailed(message) =>
          error := Some(FailureText(message, CREATE_FAILED));
      }
      loading := false;
    }

    /** `updateSkillWeight` (lines 102-106): the element at `index` gets the clamped weight
        in place; the list itself and every other element stay as they were. An index
        outside the list throws before the state is set, so nothing changes. */
    method UpdateSkillWeight(index: int, newWeight: int)
      modifies if 0 <= index < |skills| then {skills[index]} else {}
      ensures 0 <= index < |skills| ==>
                skills[index].weight == ClampWeight(newWeight)
                && skills[index].skillName == old(skills[index].skillName)
                && skills[index].category == old(skills[index].category)
      ensures 0 <= index < |skills| ==>
                forall j :: 0 <= j < |skills| && skills[j] != skills[index] ==> skills[j].weight == old(skills[j].weight)
    {
      if 0 <= index < |skills| {
        skills[index].weight := ClampWeight(newWeight);
      }
    }

    /** `removeSkill` (lines 108-110): exactly the element at `index` leaves the list and
        the rest keep their order; any other index changes nothing. */
    method RemoveSkill(index: int)
      modifies this
      ensures 0 <= index < |old(skills)| ==> skills == old(skills)[..index] + old(skills)[index + 1..]
      ensures !(0 <= index < |old(skills)|) ==> skills == old(skills)
      ensures prompt == old(prompt) && error == old(error) && aiResponse == old(aiResponse)
      ensures name == old(name) && description == old(description)
      ensures success == old(success) && generating == old(generating) && loading == old(loading)
    {
      skills := RemoveAt(skills, index);
    }

    /** Start Over (lines 340-345): the AI response, the skills and the error are cleared. */
    method StartOver()
      modifies this
      ensures aiResponse.None? && skills == [] && error.None?
      ensures prompt == old(prompt) && name == old(name) && description == old(description)
      ensures success == old(success) && generating == old(generating) && loading == old(loading)
    {
      aiResponse := None;
      skills := [];
      error := None;
    }
  }

  /** A weight set through the slider is within 1-10, and setting it again is a no-op. */
  lemma ClampIsIdempotent(w: int)
    ensures ClampWeight(ClampWeight(w)) == ClampWeight(w)
  {
  }

  /** Removing the entry at `index` shortens the list by one, keeps the entries before it
      and shifts the ones after it by one. */
  lemma RemovedListShape<T>(s: seq<T>, index: nat)
    requires index < |s|
    ensures |RemoveAt(s, index)| == |s| - 1
    ensures forall j :: 0 <= j < index ==> RemoveAt(s, index)[j] == s[j]
    ensures forall j :: index <= j < |s| - 1 ==> RemoveAt(s, index)[j] == s[j + 1]
  {
  }

  /** After a generation the page's skills are the response's own objects, so a weight
      changed on the page is also the weight the held response shows. */
  method GenerateThenReweigh(page: Page, api: string -> Reply<AIResponse>, reply: AIResponse, newWeight: int)
    modifies page, set e | e in reply.requiredSkills
    requires !AllSpace(page.prompt) && api(Trim(page.prompt)) == Replied(reply)
    requires |reply.requiredSkills| > 0
    ensures page.aiResponse == Some(reply) && page.skills == reply.requiredSkills
    ensures reply.requiredSkills[0].weight == ClampWeight(newWeight)
  {
    var sent := page.HandleGenerate(api);
    assert sent.Some? && api(sent.value) == Replied(reply);
    page.UpdateSkillWeight(0, newWeight);
  }
}
