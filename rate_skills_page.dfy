/** The employee's self-rating page (frontend/src/app/employee/rate-skills/page.tsx): the
    ratings chosen so far (a record from skill id to rating), the submission and the
    skills grouped by category. The API calls are parameters. */
module RateSkillsPage {
  import opened Common
  import opened Ui

  const NOTHING_RATED: string := "Please rate at least one skill"

  datatype Skill = Skill(id: int, name: string, category: string)

  datatype State = State(
    skills: seq<Skill>, ratings: map<int, int>, error: Option<string>, success: bool, loading: bool)

  /** `loadSkills` (lines 30-40): the reply replaces the skills; a failure sets the
      error. */
  function LoadSkills(st: State, reply: Reply<seq<Skill>>): (r: State)
    ensures reply.Replied? ==> r == st.(skills := reply.value, loading := false)
    ensures reply.Failed? ==> r == st.(error := Some(reply.message), loading := false)
  {
    match reply
    case Replied(data) => st.(skills := data, loading := false)
    case Failed(message) => st.(error := Some(message), loading := false)
  }

  /** `handleRatingChange` (lines 77-82): only the entry of `skillId` is set. */
  function HandleRatingChange(ratings: map<int, int>, skillId: int, rating: int): (r: map<int, int>)
    ensures r.Keys == ratings.Keys + {skillId}
    ensures r[skillId] == rating
    ensures forall k :: k in ratings && k != skillId ==> r[k] == ratings[k]
  {
    ratings[skillId := rating]
  }

  /** The ratings `handleSubmit` sends (lines 44-46): the entries with a rating above
      zero. The requests run together, so their order is not part of the model. */
  function SelectedRatings(ratings: map<int, int>): (r: map<int, int>)
    ensures forall k :: k in r <==> k in ratings && ratings[k] > 0
    ensures forall k :: k in r ==> r[k] == ratings[k]
  {
    map k | k in ratings && ratings[k] > 0 :: ratings[k]
  }

  /** A skill rated above zero is sent with its rating; setting it back to zero withdraws
      it, and the other selections stay as they were. */
  lemma RatingChangeDecidesSelection(ratings: map<int, int>, skillId: int, rating: int)
    ensures var after := SelectedRatings(HandleRatingChange(ratings, skillId, rating));
      && (rating > 0 ==> skillId in after && after[skillId] == rating)
      && (rating <= 0 ==> skillId !in after)
      && forall k :: k != skillId ==> (k in after <==> k in SelectedRatings(ratings))
  {
  }

  /** `handleSubmit` (lines 42-75): with nothing rated above zero only the error is set and
      nothing is sent; otherwise one request per selected entry goes out, and success
      clears every rating while failure only sets the error. */
  function HandleSubmit(st: State, result: CallResult): (r: (State, map<int, int>))
    ensures r.1 == SelectedRatings(st.ratings)
    ensures r.1 == map[] ==> r.0 == st.(error := Some(NOTHING_RATED))
    ensures r.1 != map[] && result.Succeeded? ==> r.0 == st.(ratings := map[], success := true, error := None)
    ensures r.1 != map[] && result.CallFailed? ==> r.0 == st.(success := false, error := Some(result.message))
  {
    var selected := SelectedRatings(st.ratings);
    if selected == map[] then (st.(error := Some(NOTHING_RATED)), selected)
    else match result
      case Succeeded => (st.(ratings := map[], success := true, error := None), selected)
      case CallFailed(message) => (st.(success := false, error := Some(message)), selected)
  }

  function InCategory(c: string): Skill -> bool {
    (s: Skill) => s.category == c
  }

  /** The categories of a list of skills. */
  function CategoriesOf(skills: seq<Skill>): set<string> {
    set s | s in skills :: s.category
  }

  /** `groups` holds one group per category of `prefix`, each with that category's skills
      in order. */
  predicate Grouped(groups: map<string, seq<Skill>>, prefix: seq<Skill>) {
    && groups.Keys == CategoriesOf(prefix)
    && forall c :: c in groups ==> groups[c] == Filter(prefix, InCategory(c))
  }

  /** `groupedSkills` (lines 85-91): one group per category present, holding that
      category's skills in input order. */
  method GroupSkills(skills: seq<Skill>) returns (groups: map<string, seq<Skill>>)
    ensures groups.Keys == set s | s in skills :: s.category
    ensures forall c :: c in groups ==> groups[c] == Filter(skills, InCategory(c))
  {
    groups := map[];
    var i := 0;
    while i < |skills|
      invariant 0 <= i <= |skills|
      invariant Grouped(groups, skills[..i])
    {
      var s := skills[i];
      GroupStep(groups, skills[..i], s);
      assert skills[..i + 1] == skills[..i] + [s];
      var group := if s.category in groups then groups[s.category] else [];
      groups := groups[s.category := group + [s]];
      i := i + 1;
    }
    assert skills[..i] == skills;
  }

  /** One step of the grouping: appending the next skill to its category's group (created
      empty when missing) groups one more skill of the input. */
  lemma GroupStep(groups: map<string, seq<Skill>>, prefix: seq<Skill>, s: Skill)
    requires Grouped(groups, prefix)
    ensures Grouped(groups[s.category := (if s.category in groups then groups[s.category] else []) + [s]], prefix + [s])
  {
    var next := groups[s.category := (if s.category in groups then groups[s.category] else []) + [s]];
    if s.category !in groups {
      NewCategoryIsEmpty(prefix, s.category);
    }
    CategoriesSnoc(prefix, s);
    forall c | c in next
      ensures next[c] == Filter(prefix + [s], InCategory(c))
    {
      FilterSnoc(prefix, s, InCategory(c));
    }
  }

  /** A category no skill of the list has selects nothing. */
  lemma NewCategoryIsEmpty(prefix: seq<Skill>, c: string)
    requires c !in CategoriesOf(prefix)
    ensures Filter(prefix, InCategory(c)) == []
  {
    forall k | 0 <= k < |prefix|
      ensures !InCategory(c)(prefix[k])
    {
      assert prefix[k] in prefix;
    }
    FilterDropsAll(prefix, InCategory(c));
  }

  /** One more skill adds its category to the categories. */
  lemma CategoriesSnoc(prefix: seq<Skill>, s: Skill)
    ensures CategoriesOf(prefix + [s]) == CategoriesOf(prefix) + {s.category}
  {
    forall c | c in CategoriesOf(prefix + [s])
      ensures c in CategoriesOf(prefix) + {s.category}
    {
      var x :| x in prefix + [s] && x.category == c;
      if x != s {
        assert x in prefix;
      }
    }
    forall c | c in CategoriesOf(prefix)
      ensures c in CategoriesOf(prefix + [s])
    {
      var x :| x in prefix && x.category == c;
      assert x in prefix + [s];
    }
    assert s in prefix + [s];
  }

  /** Each skill is placed exactly once: the group of its category holds every copy of it
      and every other group none. */
  lemma GroupsPlaceEachSkillOnce(skills: seq<Skill>, c: string, x: Skill)
    ensures multiset(Filter(skills, InCategory(c)))[x] == if x.category == c then multiset(skills)[x] else 0
  {
    FilterMultiplicity(skills, InCategory(c), x);
  }
}
