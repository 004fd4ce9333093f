/** The employee's ratings page (frontend/src/app/employee/my-ratings/page.tsx): the
    ratings grouped by status, the summary counts and the rating bar. */
module MyRatingsPage {
  import opened Common
  import opened Ui

  datatype MyRating = MyRating(id: int, skillId: int, selfRating: int, managerRating: Option<int>, status: string)

  function WithStatus(status: string): MyRating -> bool {
    (r: MyRating) => r.status == status
  }

  /** The three groups (lines 97-99) and the summary cards, whose numbers are the group
      lengths (lines 138-164). */
  datatype Groups = Groups(pending: seq<MyRating>, approved: seq<MyRating>, rejected: seq<MyRating>)

  function GroupByStatus(ratings: seq<MyRating>): (r: Groups)
    ensures SubseqOf(r.pending, ratings) && SubseqOf(r.approved, ratings) && SubseqOf(r.rejected, ratings)
    ensures forall x :: x in r.pending <==> x in ratings && x.status == "PENDING"
    ensures forall x :: x in r.approved <==> x in ratings && x.status == "APPROVED"
    ensures forall x :: x in r.rejected <==> x in ratings && x.status == "REJECTED"
  {
    FilterIsSubseq(ratings, WithStatus("PENDING"));
    FilterIsSubseq(ratings, WithStatus("APPROVED"));
    FilterIsSubseq(ratings, WithStatus("REJECTED"));
    Groups(Filter(ratings, WithStatus("PENDING")), Filter(ratings, WithStatus("APPROVED")),
           Filter(ratings, WithStatus("REJECTED")))
  }

  /** No rating is in two groups; when every status is one of the three the groups cover
      every rating and the counts add up to the number of ratings. */
  lemma GroupsPartition(ratings: seq<MyRating>)
    ensures var g := GroupByStatus(ratings);
      forall x :: !(x in g.pending && x in g.approved) && !(x in g.pending && x in g.rejected)
                  && !(x in g.approved && x in g.rejected)
    ensures var g := GroupByStatus(ratings);
      |g.pending| + |g.approved| + |g.rejected| <= |ratings|
    ensures (forall i :: 0 <= i < |ratings| ==> ratings[i].status in {"PENDING", "APPROVED", "REJECTED"}) ==>
              var g := GroupByStatus(ratings);
              && |g.pending| + |g.approved| + |g.rejected| == |ratings|
              && forall x :: x in ratings ==> x in g.pending || x in g.approved || x in g.rejected
  {
    ExclusiveCounts(ratings, WithStatus("PENDING"), WithStatus("APPROVED"), WithStatus("REJECTED"));
  }

  datatype State = State(ratings: seq<MyRating>, error: Option<string>, loading: bool)

  /** `loadRatings` (lines 42-52): the reply replaces the list; a failure keeps it and sets
      the error. */
  function LoadRatings(st: State, reply: Reply<seq<MyRating>>): (r: State)
    ensures reply.Replied? ==> r == State(reply.value, st.error, false)
    ensures reply.Failed? ==> r == State(st.ratings, Some(reply.message), false)
  {
    match reply
    case Replied(data) => st.(ratings := data, loading := false)
    case Failed(message) => st.(error := Some(message), loading := false)
  }
}
