/** What the frontend pages share: the outcome of an API call, the error text shown after
    a failure (`err.message || fallback`), and the status filters with their 'ALL'
    option. */
module Ui {
  import opened Common

  /** An API call that returns nothing the page keeps: it succeeds or throws. */
  datatype CallResult = Succeeded | CallFailed(message: string)

  /** An API call that returns a value, or throws with a message. */
  datatype Reply<T> = Replied(value: T) | Failed(message: string)

  /** `err.message || fallback`. */
  function FailureText(message: string, fallback: string): (r: string)
    ensures message != "" ==> r == message
    ensures message == "" ==> r == fallback
    ensures r != "" <== fallback != ""
  {
    if message != "" then message else fallback
  }

  /** `list.filter(x => filter === ALL || key(x) === filter)`. */
  function WhereKey<T(!new)>(s: seq<T>, key: T -> string, filter: string, all: string): (r: seq<T>)
    ensures SubseqOf(r, s)
    ensures filter == all ==> r == s
    ensures filter != all ==> forall x :: x in r <==> x in s && key(x) == filter
  {
    FilterIsSubseq(s, (x: T) => filter == all || key(x) == filter);
    if filter == all then
      FilterKeepsAll(s, (x: T) => filter == all || key(x) == filter);
      Filter(s, (x: T) => filter == all || key(x) == filter)
    else Filter(s, (x: T) => filter == all || key(x) == filter)
  }

  /** The colours of the rating bar. */
  datatype BarColour = Green | Blue | Yellow

  function ColourRank(c: BarColour): nat {
    match c
    case Yellow => 0
    case Blue => 1
    case Green => 2
  }

  /** `getRatingBar`: the bar is `rating / 10 * 100` per cent wide, green from 8 up, blue
      from 5 up, yellow below. */
  function RatingBar(rating: int): (r: (int, BarColour))
    ensures r.0 == rating * 10
    ensures r.1 == Green <==> rating >= 8
    ensures r.1 == Blue <==> 5 <= rating < 8
    ensures r.1 == Yellow <==> rating < 5
    ensures 0 <= rating <= 10 ==> 0 <= r.0 <= 100
  {
    (rating * 10, if rating >= 8 then Green else if rating >= 5 then Blue else Yellow)
  }

  /** A higher rating never shows a wider bar in a lower colour. */
  lemma RatingBarMonotone(a: int, b: int)
    requires a <= b
    ensures RatingBar(a).0 <= RatingBar(b).0
    ensures ColourRank(RatingBar(a).1) <= ColourRank(RatingBar(b).1)
  {
  }

  /** The `/projects/all` response as the HR pages read it: an array, or an object whose
      `projects` field may be missing. */
  datatype ProjectsResponse<P> = ProjectArray(items: seq<P>) | ProjectObject(projects: Option<seq<P>>)

  /** `Array.isArray(data) ? data : data.projects || []`. */
  function ProjectList<P>(resp: ProjectsResponse<P>): (r: seq<P>)
    ensures resp.ProjectArray? ==> r == resp.items
    ensures resp.ProjectObject? && resp.projects.Some? ==> r == resp.projects.value
    ensures resp.ProjectObject? && resp.projects.None? ==> r == []
  {
    match resp
    case ProjectArray(items) => items
    case ProjectObject(Some(projects)) => projects
    case ProjectObject(None) => []
  }
}
