/** The HR skill catalogue page (frontend/src/app/hr/skills/page.tsx): searching and
    filtering the list, and creating, editing and deleting skills. The page state is a
    value and each handler gives the next state; the API calls are parameters. */
module HrSkillsPage {
  import opened Common
  import opened Ui

  const ALL: string := "all"
  const FIELDS_MISSING: string := "Please fill in all fields"

  datatype SkillRow = SkillRow(id: int, name: string, category: string)

  datatype State = State(
    skills: seq<SkillRow>, searchTerm: string, categoryFilter: string, error: Option<string>,
    selected: Option<SkillRow>, formName: string, formCategory: string,
    createOpen: bool, editOpen: bool, deleteOpen: bool)

  function NameMatches(term: string): SkillRow -> bool {
    (s: SkillRow) => Contains(Lower(s.name), Lower(term))
  }

  function InCategory(filter: string): SkillRow -> bool {
    (s: SkillRow) => s.category == filter
  }

  /** `filterSkills` (lines 97-111): the name search when a term is given, then the category
      when it is not 'all'. */
  function FilterSkills(skills: seq<SkillRow>, searchTerm: string, categoryFilter: string): (r: seq<SkillRow>)
    ensures SubseqOf(r, skills)
    ensures forall s :: s in r <==>
              s in skills
              && (searchTerm == "" || Contains(Lower(s.name), Lower(searchTerm)))
              && (categoryFilter == ALL || s.category == categoryFilter)
  {
    var bySearch := if searchTerm != "" then Filter(skills, NameMatches(searchTerm)) else skills;
    var byCategory := if categoryFilter != ALL then Filter(bySearch, InCategory(categoryFilter)) else bySearch;
    FilterIsSubseq(skills, NameMatches(searchTerm));
    FilterIsSubseq(bySearch, InCategory(categoryFilter));
    SubseqOfItself(skills);
    SubseqOfItself(bySearch);
    SubseqTransitive(byCategory, bySearch, skills);
    byCategory
  }

  /** With no search term and the 'all' category the whole list is shown. */
  lemma NoFilterShowsAll(skills: seq<SkillRow>)
    ensures FilterSkills(skills, "", ALL) == skills
  {
  }

  /** `handleCreate` (lines 113-131): both form fields are needed; the created skill is
      appended and the dialog closed with the form cleared. Returns whether the request
      was sent. */
  function HandleCreate(st: State, reply: Reply<SkillRow>): (r: (State, bool))
    ensures st.formName == "" || st.formCategory == "" ==> r == (st.(error := Some(FIELDS_MISSING)), false)
    ensures st.formName != "" && st.formCategory != "" && reply.Replied? ==>
              r.1 && r.0 == st.(skills := st.skills + [reply.value], error := None, createOpen := false,
                                formName := "", formCategory := "")
    ensures st.formName != "" && st.formCategory != "" && reply.Failed? ==>
              r.1 && r.0 == st.(error := Some(reply.message))
  {
    if st.formName == "" || st.formCategory == "" then (st.(error := Some(FIELDS_MISSING)), false)
    else match reply
      case Replied(created) =>
        (st.(skills := st.skills + [created], error := None, createOpen := false, formName := "", formCategory := ""), true)
      case Failed(message) => (st.(error := Some(message)), true)
  }

  /** `skills.map(s => s.id === id ? updated : s)`. */
  function ReplaceById(skills: seq<SkillRow>, id: int, updated: SkillRow): (r: seq<SkillRow>)
    ensures |r| == |skills|
    ensures forall i :: 0 <= i < |r| && skills[i].id != id ==> r[i] == skills[i]
    ensures forall i :: 0 <= i < |r| && skills[i].id == id ==> r[i] == updated
  {
    seq(|skills|, i requires 0 <= i < |skills| => if skills[i].id == id then updated else skills[i])
  }

  /** `handleEdit` (lines 133-152): needs a selection and both fields; every element with the
      selected id is replaced by the server's copy. */
  function HandleEdit(st: State, reply: Reply<SkillRow>): (r: (State, bool))
    ensures st.selected.None? || st.formName == "" || st.formCategory == "" ==>
              r == (st.(error := Some(FIELDS_MISSING)), false)
    ensures st.selected.Some? && st.formName != "" && st.formCategory != "" && reply.Replied? ==>
              r.1 && r.0 == st.(skills := ReplaceById(st.skills, st.selected.value.id, reply.value), error := None,
                                editOpen := false, selected := None, formName := "", formCategory := "")
    ensures st.selected.Some? && st.formName != "" && st.formCategory != "" && reply.Failed? ==>
              r.1 && r.0 == st.(error := Some(reply.message))
  {
    if st.selected.None? || st.formName == "" || st.formCategory == "" then (st.(error := Some(FIELDS_MISSING)), false)
    else match reply
      case Replied(updated) =>
        (st.(skills := ReplaceById(st.skills, st.selected.value.id, updated), error := None, editOpen := false,
             selected := None, formName := "", formCategory := ""), true)
      case Failed(message) => (st.(error := Some(message)), true)
  }

  function OtherId(id: int): SkillRow -> bool {
    (s: SkillRow) => s.id != id
  }

  /** `skills.filter(s => s.id !== id)`. */
  function RemoveById(skills: seq<SkillRow>, id: int): (r: seq<SkillRow>)
    ensures SubseqOf(r, skills)
    ensures forall s :: s in r <==> s in skills && s.id != id
  {
    FilterIsSubseq(skills, OtherId(id));
    Filter(skills, OtherId(id))
  }

  /** `handleDelete` (lines 154-169): nothing without a selection; on success every element
      with the selected id leaves the list. */
  function HandleDelete(st: State, result: CallResult): (r: (State, bool))
    ensures st.selected.None? ==> r == (st, false)
    ensures st.selected.Some? && result.Succeeded? ==>
              r.1 && r.0 == st.(skills := RemoveById(st.skills, st.selected.value.id), error := None,
                                deleteOpen := false, selected := None)
    ensures st.selected.Some? && result.CallFailed? ==> r.1 && r.0 == st.(error := Some(result.message))
  {
    if st.selected.None? then (st, false)
    else match result
      case Succeeded =>
        (st.(skills := RemoveById(st.skills, st.selected.value.id), error := None, deleteOpen := false, selected := None), true)
      case CallFailed(message) => (st.(error := Some(message)), true)
  }

  /** Deleting a skill that was just created with an id new to the list gives the list
      back. */
  lemma {:induction false} DeleteUndoesCreate(skills: seq<SkillRow>, created: SkillRow)
    requires forall s :: s in skills ==> s.id != created.id
    ensures RemoveById(skills + [created], created.id) == skills
  {
    FilterConcat(skills, [created], OtherId(created.id));
    FilterKeepsAll(skills, OtherId(created.id));
  }

  /** Editing keeps the ids of the elements it does not address and never changes the
      list's length; after an edit with a server copy carrying the same id, the set of ids
      is unchanged. */
  lemma EditKeepsIds(skills: seq<SkillRow>, id: int, updated: SkillRow)
    requires updated.id == id
    ensures forall i :: 0 <= i < |skills| ==> ReplaceById(skills, id, updated)[i].id == skills[i].id
  {
  }

  function Category(s: SkillRow): string {
    s.category
  }

  /** The Categories card (line 247): the number of distinct categories, at most the number
      of skills, and at least one when there are skills. */
  function CategoryCount(skills: seq<SkillRow>): (r: nat)
    ensures r <= |skills|
    ensures skills != [] ==> r >= 1
    ensures r == |set s | s in skills :: s.category|
  {
    var categories := seq(|skills|, i requires 0 <= i < |skills| => skills[i].category);
    assert (set c | c in categories) == (set s | s in skills :: s.category) by {
      forall c | c in (set s | s in skills :: s.category)
        ensures c in categories
      {
        var s :| s in skills && s.category == c;
        var i :| 0 <= i < |skills| && skills[i] == s;
        assert categories[i] == c;
      }
    }
    SetSizeIsDistinctLength(categories);
    assert skills != [] ==> categories[0] in (set c | c in categories);
    |set s | s in skills :: s.category|
  }
}
