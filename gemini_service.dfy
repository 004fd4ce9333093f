/** Skill-name matching and validation of the AI reply
    (Backend/src/services/geminiService.js). The AI call itself and the JSON parsing of
    its text are outside the model: their outcome, the parsed reply or a failure, is an
    input. */
module GeminiService {
  import opened Common

  /** A skill row as the matcher sees it (`select: { id, name }`). */
  datatype DbSkill = DbSkill(id: int, name: string)

  // ---------------------------------------------------------------------------
  // Validation of the AI reply (analyzeProjectRequirements, after JSON.parse)

  /** One element of the parsed reply. `weight` is None when it is not a number. */
  datatype RawSkill = RawSkill(skillName: Option<string>, weight: Option<real>)

  /** The outcome of the AI call and of `JSON.parse` on its cleaned text: a failure of
      either (`Unreadable`), a JSON value that is not an array, or an array of elements. */
  datatype AiReply = Unreadable | NotAnArray | Items(items: seq<RawSkill>)

  datatype AiSkill = AiSkill(skillName: string, weight: real)

  datatype Validated = Invalid(message: string) | Valid(skills: seq<AiSkill>)

  /** `Math.max(1, Math.min(100, w))`. */
  function ClampWeight(w: real): (r: real)
    ensures 1.0 <= r <= 100.0
    ensures 1.0 <= w <= 100.0 ==> r == w
    ensures w < 1.0 ==> r == 1.0
    ensures w > 100.0 ==> r == 100.0
  {
    if 100.0 < w then 100.0 else if w < 1.0 then 1.0 else w
  }

  predicate WellFormed(raw: RawSkill) {
    Present(raw.skillName) && raw.weight.Some?
  }

  /** One accepted element: the trimmed name and the clamped weight. */
  function Cleaned(raw: RawSkill): (s: AiSkill)
    requires WellFormed(raw)
    ensures 1.0 <= s.weight <= 100.0
  {
    AiSkill(Trim(raw.skillName.value), ClampWeight(raw.weight.value))
  }

  /** The `skills.map(...)` step: every element needs a name and a numeric weight;
      the first bad element aborts the whole reply. */
  function ValidateItems(items: seq<RawSkill>): (r: Validated)
    ensures r.Valid? <==> forall i :: 0 <= i < |items| ==> WellFormed(items[i])
    ensures r.Invalid? ==> r.message == SkillFormatError
    ensures r.Valid? ==> |r.skills| == |items|
    ensures r.Valid? ==> r.skills == CleanedAll(items)
    ensures r.Valid? ==> forall i :: 0 <= i < |items| ==>
              && r.skills[i].skillName == Trim(items[i].skillName.value)
              && r.skills[i].weight == ClampWeight(items[i].weight.value)
  {
    if items == [] then Valid([])
    else if !WellFormed(items[0]) then Invalid(SkillFormatError)
    else
      match ValidateItems(items[1..])
      case Invalid(m) => Invalid(m)
      case Valid(rest) => Valid([Cleaned(items[0])] + rest)
  }

  /** Every element cleaned, in order. */
  function CleanedAll(items: seq<RawSkill>): (r: seq<AiSkill>)
    requires forall i :: 0 <= i < |items| ==> WellFormed(items[i])
    ensures |r| == |items|
    ensures forall i :: 0 <= i < |items| ==> r[i] == Cleaned(items[i])
  {
    if items == [] then [] else [Cleaned(items[0])] + CleanedAll(items[1..])
  }

  const SkillFormatError: string := "Invalid skill format: Missing skillName or weight"
  const ArrayFormatError: string := "Invalid response format: Expected array"

  /** `analyzeProjectRequirements` after the call (lines 31-70): a failed call or parse
      and a reply that is not an array are errors; an array is validated element by
      element, trimmed and clamped. */
  function ValidateReply(reply: AiReply): (r: Validated)
    ensures reply.Unreadable? ==> r.Invalid?
    ensures reply.NotAnArray? ==> r == Invalid(ArrayFormatError)
    ensures reply.Items? ==> r == ValidateItems(reply.items)
    ensures r.Valid? <==> reply.Items? && forall i :: 0 <= i < |reply.items| ==> WellFormed(reply.items[i])
    ensures r.Valid? ==> |r.skills| == |reply.items|
    ensures r.Valid? ==> forall i :: 0 <= i < |r.skills| ==> 1.0 <= r.skills[i].weight <= 100.0
  {
    match reply
    case Unreadable => Invalid("Failed to analyze project requirements")
    case NotAnArray => Invalid(ArrayFormatError)
    case Items(items) => ValidateItems(items)
  }

  // ---------------------------------------------------------------------------
  // matchSkillToDatabase

  /** The abbreviation table (lines 103-133), as a finite map with exactly these keys. */
  const Variations: map<string, string> := map[
    "js" := "javascript", "ts" := "typescript", "reactjs" := "react", "react.js" := "react",
    "nodejs" := "node.js", "node" := "node.js", "vue.js" := "vue", "vuejs" := "vue",
    "angular.js" := "angular", "angularjs" := "angular", "mongo" := "mongodb",
    "postgresql" := "postgres", "psql" := "postgres", "py" := "python", "c++" := "cpp",
    "c#" := "csharp", "css3" := "css", "html5" := "html", "mysql" := "sql",
    "mssql" := "sql server", "aws" := "amazon web services", "gcp" := "google cloud platform",
    "k8s" := "kubernetes", "docker" := "containerization", "ci/cd" := "continuous integration",
    "ml" := "machine learning", "ai" := "artificial intelligence", "rest" := "restful api",
    "graphql" := "graph ql"]

  /** `geminiSkillName.toLowerCase().trim()`. */
  function Normalize(query: string): string {
    Trim(Lower(query))
  }

  predicate ExactName(n: string, s: DbSkill) {
    Lower(s.name) == n
  }

  predicate NameContainsQuery(n: string, s: DbSkill) {
    Contains(Lower(s.name), n)
  }

  predicate QueryContainsName(n: string, s: DbSkill) {
    Contains(n, Lower(s.name))
  }

  /** Tier 4: the skill relates to the table's expansion `v` of the query. */
  predicate RelatedToVariation(v: string, s: DbSkill) {
    Lower(s.name) == v || Contains(Lower(s.name), v) || Contains(v, Lower(s.name))
  }

  /** Tier 5: the table's expansion of the skill name is the query, or the query contains
      that expansion (`dbVariation || ''`, so a name that is not a key always qualifies). */
  predicate ReverseVariation(n: string, s: DbSkill) {
    var dbName := Lower(s.name);
    (dbName in Variations && Variations[dbName] == n)
    || Contains(n, if dbName in Variations then Variations[dbName] else "")
  }

  /** Tier 4 fires only when the normalised query is a key of the table. */
  function AbbreviationTier(n: string, db: seq<DbSkill>): (r: Option<DbSkill>)
    ensures n !in Variations ==> r.None?
    ensures r.Some? ==> r.value in db
    ensures n in Variations && Variations[n] != "" ==>
              (r.None? <==> forall i :: 0 <= i < |db| ==> !RelatedToVariation(Variations[n], db[i]))
    ensures n in Variations && Variations[n] != "" ==>
              forall i :: (0 <= i < |db| && RelatedToVariation(Variations[n], db[i])
                           && forall j :: 0 <= j < i ==> !RelatedToVariation(Variations[n], db[j])) ==> r == Some(db[i])
  {
    if n in Variations && Variations[n] != "" then Find(db, s => RelatedToVariation(Variations[n], s))
    else None
  }

  /** The tiers applied to an already normalised query: the first skill (in list order)
      of the first tier that has one, or None. */
  function MatchNormalized(n: string, db: seq<DbSkill>): (r: Option<DbSkill>)
    ensures r.Some? ==> r.value in db
    ensures db == [] ==> r.None?
  {
    var exact := Find(db, s => ExactName(n, s));
    if exact.Some? then exact
    else
      var inName := Find(db, s => NameContainsQuery(n, s));
      if inName.Some? then inName
      else
        var inQuery := Find(db, s => QueryContainsName(n, s));
        if inQuery.Some? then inQuery
        else
          var abbreviation := AbbreviationTier(n, db);
          if abbreviation.Some? then abbreviation
          else Find(db, s => ReverseVariation(n, s))
  }

  /** `matchSkillToDatabase`: a skill of `db`, or None (lines 81-157). */
  function MatchSkillToDatabase(query: string, db: seq<DbSkill>): (r: Option<DbSkill>)
    ensures r.Some? ==> r.value in db
    ensures db == [] ==> r.None?
  {
    MatchNormalized(Normalize(query), db)
  }

  lemma LowerOfSpace(p: string)
    requires AllSpace(p)
    ensures Lower(p) == p
  {
  }

  /** Queries that differ only in letter case or surrounding white space match the same
      skill. */
  lemma MatchIgnoresCaseAndPadding(q1: string, q2: string, before: string, after: string, db: seq<DbSkill>)
    requires AllSpace(before) && AllSpace(after)
    requires Lower(q1) == Lower(q2)
    ensures MatchSkillToDatabase(before + q1 + after, db) == MatchSkillToDatabase(q2, db)
  {
    LowerConcat(before + q1, after);
    LowerConcat(before, q1);
    LowerOfSpace(before);
    LowerOfSpace(after);
    TrimIgnoresPadding(before, Lower(q2), after);
    assert Normalize(before + q1 + after) == Normalize(q2);
  }

  /** An exact (case-insensitive) name match wins over every other tier, and the first
      such skill in list order is the one returned. */
  lemma ExactMatchWins(query: string, db: seq<DbSkill>, i: nat)
    requires i < |db| && Lower(db[i].name) == Normalize(query)
    requires forall j :: 0 <= j < i ==> Lower(db[j].name) != Normalize(query)
    ensures MatchSkillToDatabase(query, db) == Some(db[i])
  {
    var n := Normalize(query);
    assert ExactName(n, db[i]);
  }

  /** With no exact match anywhere, the first skill whose name contains the query wins. */
  lemma ContainmentTierOrder(query: string, db: seq<DbSkill>, i: nat)
    requires forall j :: 0 <= j < |db| ==> Lower(db[j].name) != Normalize(query)
    requires i < |db| && Contains(Lower(db[i].name), Normalize(query))
    requires forall j :: 0 <= j < i ==> !Contains(Lower(db[j].name), Normalize(query))
    ensures MatchSkillToDatabase(query, db) == Some(db[i])
  {
    var n := Normalize(query);
    assert Find(db, s => ExactName(n, s)).None?;
    assert NameContainsQuery(n, db[i]);
  }

  /** With neither an exact match nor a name containing the query, the first skill whose
      name the query contains wins. */
  lemma QueryContainsNameTierOrder(query: string, db: seq<DbSkill>, i: nat)
    requires forall j :: 0 <= j < |db| ==> Lower(db[j].name) != Normalize(query)
    requires forall j :: 0 <= j < |db| ==> !Contains(Lower(db[j].name), Normalize(query))
    requires i < |db| && Contains(Normalize(query), Lower(db[i].name))
    requires forall j :: 0 <= j < i ==> !Contains(Normalize(query), Lower(db[j].name))
    ensures MatchSkillToDatabase(query, db) == Some(db[i])
  {
    var n := Normalize(query);
    assert Find(db, s => ExactName(n, s)).None?;
    assert Find(db, s => NameContainsQuery(n, s)).None?;
    assert QueryContainsName(n, db[i]);
  }

  /** With no match in the first three tiers, a query that is a key of the abbreviation
      table gets the first skill (in list order) related to the key's expansion. */
  lemma AbbreviationTierOrder(query: string, db: seq<DbSkill>, i: nat)
    requires forall j :: 0 <= j < |db| ==> Lower(db[j].name) != Normalize(query)
    requires forall j :: 0 <= j < |db| ==> !Contains(Lower(db[j].name), Normalize(query))
    requires forall j :: 0 <= j < |db| ==> !Contains(Normalize(query), Lower(db[j].name))
    requires Normalize(query) in Variations && Variations[Normalize(query)] != ""
    requires i < |db| && RelatedToVariation(Variations[Normalize(query)], db[i])
    requires forall j :: 0 <= j < i ==> !RelatedToVariation(Variations[Normalize(query)], db[j])
    ensures MatchSkillToDatabase(query, db) == Some(db[i])
  {
    var n := Normalize(query);
    assert AbbreviationTier(n, db) == Some(db[i]);
    FourthTierDecides(n, db, db[i]);
  }

  /** When the first three tiers find nothing, the abbreviation tier's answer is the match. */
  lemma FourthTierDecides(n: string, db: seq<DbSkill>, s: DbSkill)
    requires forall j :: 0 <= j < |db| ==> !ExactName(n, db[j]) && !NameContainsQuery(n, db[j]) && !QueryContainsName(n, db[j])
    requires AbbreviationTier(n, db) == Some(s)
    ensures MatchNormalized(n, db) == Some(s)
  {
    assert Find(db, s => ExactName(n, s)).None?;
    assert Find(db, s => NameContainsQuery(n, s)).None?;
    assert Find(db, s => QueryContainsName(n, s)).None?;
  }

  /** A query that is blank after trimming matches whenever there is any skill: the first
      skill with an empty name if there is one, otherwise the first skill, because every
      name contains the empty string. */
  lemma BlankQueryMatchesFirst(query: string, db: seq<DbSkill>)
    requires AllSpace(Lower(query)) && db != []
    requires forall j :: 0 <= j < |db| ==> db[j].name != ""
    ensures MatchSkillToDatabase(query, db) == Some(db[0])
  {
    var n := Normalize(query);
    assert n == "";
    forall j | 0 <= j < |db|
      ensures !ExactName(n, db[j])
    {
      assert |Lower(db[j].name)| == |db[j].name| > 0;
    }
    ContainsSelf(Lower(db[0].name));
    assert NameContainsQuery(n, db[0]);
  }

  /** A skill whose lower-cased name is not a key of the table always satisfies the last
      tier, so the matcher never returns None in that case. */
  lemma NonKeyNameAlwaysMatches(query: string, db: seq<DbSkill>, i: nat)
    requires i < |db| && Lower(db[i].name) !in Variations
    ensures MatchSkillToDatabase(query, db).Some?
  {
    var n := Normalize(query);
    ContainsSelf(n);
    assert ReverseVariation(n, db[i]);
    LastTierCovers(n, db);
  }

  /** The last tier is the fallback: when it has a skill, the matcher returns one. */
  lemma LastTierCovers(n: string, db: seq<DbSkill>)
    ensures Find(db, s => ReverseVariation(n, s)).Some? ==> MatchNormalized(n, db).Some?
  {
  }


}
