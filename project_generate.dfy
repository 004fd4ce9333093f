/** `generateProject` (Backend/src/controllers/projectController.js:15-84): the keyword
    classifier for skill categories, the 1-100 to 1-10 weight rescale and the project
    name derived from the prompt. The AI analysis is a function parameter. */
module ProjectGenerate {
  import opened Common
  import opened GeminiService

  datatype Category = Frontend | Backend | Database | Cloud | DevOps | Mobile | Design | Testing | Programming

  function CategoryLabel(c: Category): string {
    match c
    case Frontend => "Frontend"
    case Backend => "Backend"
    case Database => "Database"
    case Cloud => "Cloud"
    case DevOps => "DevOps"
    case Mobile => "Mobile"
    case Design => "Design"
    case Testing => "Testing"
    case Programming => "Programming"
  }

  /** The alternatives of each regular expression; `ci\/?cd` is "cicd" or "ci/cd". */
  const FrontendKeys: seq<string> := ["react", "vue", "angular", "svelte", "frontend", "css", "html", "tailwind", "bootstrap"]
  const BackendKeys: seq<string> := ["node", "express", "django", "spring", "laravel", "backend", "ruby", "php", "go", "golang"]
  const DatabaseKeys: seq<string> := ["sql", "postgres", "mysql", "mongodb", "redis", "database", "dynamodb", "cassandra"]
  const CloudKeys: seq<string> := ["aws", "azure", "gcp", "cloud", "google cloud", "amazon web services"]
  const DevOpsKeys: seq<string> := ["docker", "kubernetes", "k8s", "cicd", "ci/cd", "jenkins", "gitlab-ci", "circleci"]
  const MobileKeys: seq<string> := ["android", "ios", "react native", "flutter", "swift", "kotlin"]
  const DesignKeys: seq<string> := ["design", "ux", "ui", "figma", "adobe"]
  const TestingKeys: seq<string> := ["test", "jest", "mocha", "cypress", "selenium", "testing"]

  /** An unanchored regular expression of alternatives matches iff one alternative occurs. */
  predicate MentionsAny(n: string, keys: seq<string>) {
    exists i :: 0 <= i < |keys| && Contains(n, keys[i])
  }

  /** `guessCategory`: the first keyword group (in the fixed order) mentioned by the
      lower-cased name, else Programming. */
  function GuessCategory(name: string): (r: Category)
    ensures var n := Lower(name);
      && (r == Frontend <==> MentionsAny(n, FrontendKeys))
      && (r == Backend <==> !MentionsAny(n, FrontendKeys) && MentionsAny(n, BackendKeys))
      && (r == Database <==>
            !MentionsAny(n, FrontendKeys) && !MentionsAny(n, BackendKeys) && MentionsAny(n, DatabaseKeys))
      && (r == Cloud <==>
            !MentionsAny(n, FrontendKeys) && !MentionsAny(n, BackendKeys) && !MentionsAny(n, DatabaseKeys)
            && MentionsAny(n, CloudKeys))
      && (r == DevOps <==>
            !MentionsAny(n, FrontendKeys) && !MentionsAny(n, BackendKeys) && !MentionsAny(n, DatabaseKeys)
            && !MentionsAny(n, CloudKeys) && MentionsAny(n, DevOpsKeys))
      && (r == Mobile <==>
            !MentionsAny(n, FrontendKeys) && !MentionsAny(n, BackendKeys) && !MentionsAny(n, DatabaseKeys)
            && !MentionsAny(n, CloudKeys) && !MentionsAny(n, DevOpsKeys) && MentionsAny(n, MobileKeys))
      && (r == Design <==>
            !MentionsAny(n, FrontendKeys) && !MentionsAny(n, BackendKeys) && !MentionsAny(n, DatabaseKeys)
            && !MentionsAny(n, CloudKeys) && !MentionsAny(n, DevOpsKeys) && !MentionsAny(n, MobileKeys)
            && MentionsAny(n, DesignKeys))
      && (r == Testing <==>
            !MentionsAny(n, FrontendKeys) && !MentionsAny(n, BackendKeys) && !MentionsAny(n, DatabaseKeys)
            && !MentionsAny(n, CloudKeys) && !MentionsAny(n, DevOpsKeys) && !MentionsAny(n, MobileKeys)
            && !MentionsAny(n, DesignKeys) && MentionsAny(n, TestingKeys))
      && (r == Programming <==>
            !MentionsAny(n, FrontendKeys) && !MentionsAny(n, BackendKeys) && !MentionsAny(n, DatabaseKeys)
            && !MentionsAny(n, CloudKeys) && !MentionsAny(n, DevOpsKeys) && !MentionsAny(n, MobileKeys)
            && !MentionsAny(n, DesignKeys) && !MentionsAny(n, TestingKeys))
  {
    var n := Lower(name);
    if MentionsAny(n, FrontendKeys) then Frontend
    else if MentionsAny(n, BackendKeys) then Backend
    else if MentionsAny(n, DatabaseKeys) then Database
    else if MentionsAny(n, CloudKeys) then Cloud
    else if MentionsAny(n, DevOpsKeys) then DevOps
    else if MentionsAny(n, MobileKeys) then Mobile
    else if MentionsAny(n, DesignKeys) then Design
    else if MentionsAny(n, TestingKeys) then Testing
    else Programming
  }

  /** Classification ignores letter case. */
  lemma GuessCategoryIgnoresCase(a: string, b: string)
    requires Lower(a) == Lower(b)
    ensures GuessCategory(a) == GuessCategory(b)
  {
  }

  /** "MongoDB" mentions "go", so the Backend test, which runs before the Database test,
      claims it. */
  lemma MongoDbIsBackend()
    ensures GuessCategory("MongoDB") == Backend
  {
    var n := Lower("MongoDB");
    assert n == "mongodb";
    MongoDbNotFrontend(n);
    assert n[3..5] == "go";
    ContainsAt(n, "go", 3);
    assert BackendKeys[8] == "go";
  }

  lemma MongoDbNotFrontend(n: string)
    requires n == "mongodb"
    ensures !MentionsAny(n, FrontendKeys)
  {
    forall i | 0 <= i < |FrontendKeys|
      ensures !Contains(n, FrontendKeys[i])
    {
      ContainsLength(n, FrontendKeys[i]);
      ContainsFirstChar(n, FrontendKeys[i]);
    }
  }

  /** "React Native" is a Mobile keyword, but the Frontend test runs first. */
  lemma ReactNativeIsFrontend()
    ensures GuessCategory("React Native") == Frontend
  {
    assert Lower("React Native")[0..5] == "react";
    ContainsAt(Lower("React Native"), "react", 0);
    assert FrontendKeys[0] == "react";
  }

  /** `Math.round` (halves round up). */
  function Round(x: real): (r: int)
    ensures r as real <= x + 0.5 < r as real + 1.0
  {
    (x + 0.5).Floor
  }

  function Clamp(lo: int, hi: int, x: int): (r: int)
    requires lo <= hi
    ensures lo <= r <= hi
    ensures lo <= x <= hi ==> r == x
  {
    if x < lo then lo else if hi < x then hi else x
  }

  /** `Math.max(1, Math.min(10, Math.round((w || 1) / 10)))`. */
  function RescaleWeight(w: real): (r: int)
    ensures 1 <= r <= 10
    ensures w == 0.0 ==> r == 1
  {
    var base := if w == 0.0 then 1.0 else w;
    Clamp(1, 10, Round(base / 10.0))
  }

  /** For integer weights the rescale is the integer formula `(w + 5) div 10`, clamped. */
  lemma RescaleIntegerWeight(w: int)
    requires w >= 1
    ensures RescaleWeight(w as real) == Clamp(1, 10, (w + 5) / 10)
  {
    var q := (w + 5) / 10;
    var x := (w as real) / 10.0 + 0.5;
    assert x == (w + 5) as real / 10.0;
    assert q as real <= x < q as real + 1.0;
    assert Round((w as real) / 10.0) == q;
  }

  /** The rescale never decreases when the weight grows. */
  lemma RescaleMonotone(w1: real, w2: real)
    requires w1 <= w2
    ensures RescaleWeight(w1) <= RescaleWeight(w2)
  {
    var b1 := if w1 == 0.0 then 1.0 else w1;
    var b2 := if w2 == 0.0 then 1.0 else w2;
    if b1 <= b2 {
      var r1 := Round(b1 / 10.0);
      var r2 := Round(b2 / 10.0);
      assert r1 as real < r2 as real + 1.0;
    } else {
      // only w1 == 0 < w2 < 1, or w1 < 0 == w2, reach here; both give 1 after clamping
      assert Round(b1 / 10.0) <= 1 && Round(b2 / 10.0) <= 1;
    }
  }

  predicate IsNameSeparator(c: char) {
    c == '\n' || c == '.' || c == '?'
  }

  const DefaultProjectName: string := "AI Generated Project"

  /** `prompt.split(/\n|\.|\?/)[0].trim()`: the trimmed first segment, which holds no
      separator. */
  function NameSegment(prompt: string): (r: string)
    ensures forall i :: 0 <= i < |r| ==> !IsNameSeparator(r[i])
  {
    var segment := TakeUntil(prompt, IsNameSeparator);
    SegmentHasNoSeparator(segment);
    Trim(segment)
  }

  lemma SegmentHasNoSeparator(segment: string)
    requires forall i :: 0 <= i < |segment| ==> !IsNameSeparator(segment[i])
    ensures forall i :: 0 <= i < |Trim(segment)| ==> !IsNameSeparator(Trim(segment)[i])
  {
    TrimKeepsCharacters(segment);
    forall i | 0 <= i < |Trim(segment)|
      ensures !IsNameSeparator(Trim(segment)[i])
    {
      assert Trim(segment)[i] in segment;
    }
  }

  /** The name `generateProject` gives: the first segment, defaulted when blank and cut
      to 120 characters. */
  function ProjectName(prompt: string): (r: string)
    ensures 0 < |r| <= 120
    ensures forall i :: 0 <= i < |r| ==> !IsNameSeparator(r[i])
    ensures var first := NameSegment(prompt);
      && (first == [] ==> r == DefaultProjectName)
      && (0 < |first| <= 120 ==> r == first)
      && (120 < |first| ==> r == first[..120])
  {
    var first := NameSegment(prompt);
    if first == [] then DefaultProjectName
    else if |first| > 120 then first[..120]
    else first
  }

  datatype GeneratedSkill = GeneratedSkill(skillName: string, category: Category, weight: int)

  datatype GenerateReply =
    | GenerateFailed(code: int)
    | Generated(projectName: string, description: string, requiredSkills: seq<GeneratedSkill>)

  function ToGenerated(skills: seq<AiSkill>): (r: seq<GeneratedSkill>)
    ensures |r| == |skills|
    ensures forall i :: 0 <= i < |r| ==>
              r[i].skillName == skills[i].skillName
              && r[i].category == GuessCategory(skills[i].skillName)
              && r[i].weight == RescaleWeight(skills[i].weight)
  {
    seq(|skills|, i requires 0 <= i < |skills| =>
      GeneratedSkill(skills[i].skillName, GuessCategory(skills[i].skillName), RescaleWeight(skills[i].weight)))
  }

  /** `generateProject`: 400 for a missing or blank prompt; otherwise the trimmed prompt
      goes to the AI, whose reply is validated (an unreadable or malformed reply is 500),
      and the reply carries the derived name, the untrimmed prompt as description and the
      classified, rescaled skills. */
  function GenerateProject(prompt: Option<string>, gemini: string -> AiReply): (r: GenerateReply)
    ensures (prompt.None? || AllSpace(prompt.value)) <==> r == GenerateFailed(400)
    ensures r == GenerateFailed(500) <==>
              prompt.Some? && !AllSpace(prompt.value) && ValidateReply(gemini(Trim(prompt.value))).Invalid?
    ensures r.Generated? ==>
              && prompt.Some?
              && r.projectName == ProjectName(prompt.value)
              && r.description == prompt.value
              && r.requiredSkills == ToGenerated(ValidateReply(gemini(Trim(prompt.value))).skills)
    ensures r.Generated? ==>
              var reply := gemini(Trim(prompt.value));
              && reply.Items? && |r.requiredSkills| == |reply.items|
              && forall i :: 0 <= i < |reply.items| ==>
                   && r.requiredSkills[i].skillName == Trim(reply.items[i].skillName.value)
                   && r.requiredSkills[i].weight == RescaleWeight(ClampWeight(reply.items[i].weight.value))
                   && 1 <= r.requiredSkills[i].weight <= 10
  {
    if prompt.None? || Trim(prompt.value) == [] then GenerateFailed(400)
    else
      match ValidateReply(gemini(Trim(prompt.value)))
      case Invalid(_) => GenerateFailed(500)
      case Valid(skills) => Generated(ProjectName(prompt.value), prompt.value, ToGenerated(skills))
  }
}
