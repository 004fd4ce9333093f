/** The skill catalogue page (frontend/src/app/skills/page.tsx): the search and category
    filter, the category list and the payload of a new skill. */
module SkillsPage {
  import opened Common

  datatype CatalogueSkill = CatalogueSkill(id: int, name: string, category: Option<string>)

  /** `skill.name` or, when the category is set, the category contains the search term,
      ignoring case; and no category is selected or the skill's is the selected one. */
  function Shown(searchTerm: string, selectedCategory: string): CatalogueSkill -> bool {
    (s: CatalogueSkill) =>
      (Contains(Lower(s.name), Lower(searchTerm))
       || (Present(s.category) && Contains(Lower(s.category.value), Lower(searchTerm))))
      && (selectedCategory == "" || s.category == Some(selectedCategory))
  }

  /** `filteredSkills` (lines 108-116). */
  function FilteredSkills(skills: seq<CatalogueSkill>, searchTerm: string, selectedCategory: string): (r: seq<CatalogueSkill>)
    ensures SubseqOf(r, skills)
    ensures forall s :: s in r <==>
              s in skills
              && (Contains(Lower(s.name), Lower(searchTerm))
                  || (Present(s.category) && Contains(Lower(s.category.value), Lower(searchTerm))))
              && (selectedCategory == "" || s.category == Some(selectedCategory))
  {
    FilterIsSubseq(skills, Shown(searchTerm, selectedCategory));
    Filter(skills, Shown(searchTerm, selectedCategory))
  }

  /** With an empty search and no category selected every skill is shown. */
  lemma EmptyFiltersShowAll(skills: seq<CatalogueSkill>)
    ensures FilteredSkills(skills, "", "") == skills
  {
    forall s | s in skills
      ensures Shown("", "")(s)
    {
      ContainsSelf(Lower(s.name));
    }
    FilterKeepsAll(skills, Shown("", ""));
  }

  /** A selected category admits only skills of that category, whatever the search. */
  lemma SelectedCategoryOnly(skills: seq<CatalogueSkill>, searchTerm: string, selectedCategory: string)
    requires selectedCategory != ""
    ensures forall s :: s in FilteredSkills(skills, searchTerm, selectedCategory) ==> s.category == Some(selectedCategory)
  {
  }

  function CategoryText(s: CatalogueSkill): string {
    if s.category.Some? then s.category.value else ""
  }

  /** The skills' categories, with the missing ones and the empty ones dropped
      (`skills.map(s => s.category).filter(Boolean)`). */
  function PresentCategories(skills: seq<CatalogueSkill>): (r: seq<string>)
    ensures forall c :: c in r <==> c != "" && exists s :: s in skills && s.category == Some(c)
  {
    var texts := seq(|skills|, i requires 0 <= i < |skills| => CategoryText(skills[i]));
    assert forall c :: c in texts <==> exists s :: s in skills && CategoryText(s) == c by {
      forall c | exists s :: s in skills && CategoryText(s) == c
        ensures c in texts
      {
        var s :| s in skills && CategoryText(s) == c;
        var i :| 0 <= i < |skills| && skills[i] == s;
        assert texts[i] == c;
      }
    }
    Filter(texts, (c: string) => c != "")
  }

  /** `categories` (lines 119-121): each present category once. */
  function Categories(skills: seq<CatalogueSkill>): (r: seq<string>)
    ensures NoDuplicates(r)
    ensures forall c :: c in r <==> c != "" && exists s :: s in skills && s.category == Some(c)
    ensures |r| <= |skills|
  {
    Distinct(PresentCategories(skills))
  }

  /** The categories appear in the order in which the skills first mention them. */
  lemma CategoriesInFirstOccurrenceOrder(skills: seq<CatalogueSkill>)
    ensures forall i, j :: 0 <= i < j < |Categories(skills)| ==>
              FirstPos(PresentCategories(skills), Categories(skills)[i])
              < FirstPos(PresentCategories(skills), Categories(skills)[j])
  {
    DistinctInFirstOccurrenceOrder(PresentCategories(skills));
  }

  /** The body of `handleCreateSkill` (lines 78-86): nothing for a blank name; otherwise the
      trimmed name, with the trimmed category or none when it is blank. */
  function CreatePayload(name: string, category: string): (r: Option<(string, Option<string>)>)
    ensures r.None? <==> AllSpace(name)
    ensures r.Some? ==> r.value.0 == Trim(name) && r.value.0 != ""
    ensures r.Some? ==> (r.value.1.None? <==> AllSpace(category))
    ensures r.Some? && r.value.1.Some? ==> r.value.1.value == Trim(category) && r.value.1.value != ""
  {
    if Trim(name) == "" then None
    else Some((Trim(name), if Trim(category) == "" then None else Some(Trim(category))))
  }

  /** Padding the fields with white space does not change the payload. */
  lemma PayloadIgnoresPadding(p: string, name: string, q: string, category: string)
    requires AllSpace(p) && AllSpace(q)
    ensures CreatePayload(p + name + q, p + category + q) == CreatePayload(name, category)
  {
    TrimIgnoresPadding(p, name, q);
    TrimIgnoresPadding(p, category, q);
  }
}
