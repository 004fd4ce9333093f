/** The manager's rating-approval page (frontend/src/app/manager/approvals/page.tsx): the
    pending ratings, the review dialog and the decision. The API calls are parameters. */
module ManagerApprovalsPage {
  import opened Common
  import opened Ui

  datatype PendingRating = PendingRating(id: int, skillId: int, selfRating: int, employeeId: int)

  /** The two buttons of the review dialog. */
  datatype Verdict = Approve | Reject

  datatype State = State(
    ratings: seq<PendingRating>, error: Option<string>, selected: Option<PendingRating>,
    managerRating: int, comments: string, processing: bool, loading: bool)

  /** The body of the decision request. */
  datatype Decision = Decision(managerStatus: string, managerRating: Option<int>, managerComments: string)

  /** `loadPendingRatings` (lines 62-72): the list is replaced by the reply, or kept with the
      error set when the call fails. */
  function LoadPending(st: State, reply: Reply<seq<PendingRating>>): (r: State)
    ensures reply.Replied? ==> r == st.(ratings := reply.value, loading := false)
    ensures reply.Failed? ==> r == st.(error := Some(reply.message), loading := false)
  {
    match reply
    case Replied(data) => st.(ratings := data, loading := false)
    case Failed(message) => st.(error := Some(message), loading := false)
  }

  /** `openApprovalDialog` (lines 74-79): the manager's rating starts at the employee's own
      rating, and the comments and the error are cleared. */
  function OpenApprovalDialog(st: State, rating: PendingRating): (r: State)
    ensures r.selected == Some(rating) && r.managerRating == rating.selfRating
    ensures r.comments == "" && r.error.None?
    ensures r.ratings == st.ratings && r.processing == st.processing && r.loading == st.loading
  {
    st.(selected := Some(rating), managerRating := rating.selfRating, comments := "", error := None)
  }

  /** The request body (lines 88-92): the manager's rating is sent only with an approval. */
  function DecisionBody(v: Verdict, managerRating: int, comments: string): (r: Decision)
    ensures r.managerRating.None? <==> v == Reject
    ensures r.managerRating.Some? ==> r.managerRating.value == managerRating
    ensures r.managerStatus == (if v == Approve then "APPROVED" else "REJECTED")
    ensures r.managerComments == comments
  {
    match v
    case Approve => Decision("APPROVED", Some(managerRating), comments)
    case Reject => Decision("REJECTED", None, comments)
  }

  function OtherRating(id: int): PendingRating -> bool {
    (r: PendingRating) => r.id != id
  }

  /** `ratings.filter(r => r.id !== id)`. */
  function RemoveRating(ratings: seq<PendingRating>, id: int): (r: seq<PendingRating>)
    ensures SubseqOf(r, ratings)
    ensures forall x :: x in r <==> x in ratings && x.id != id
  {
    FilterIsSubseq(ratings, OtherRating(id));
    Filter(ratings, OtherRating(id))
  }

  /** `handleApprove` (lines 81-102): nothing without a selection. Otherwise the decision
      for the selected id is sent; on success that rating leaves the list and the
      selection is cleared, and on failure only the error changes. */
  function HandleApprove(st: State, v: Verdict, result: CallResult): (r: (State, Option<(int, Decision)>))
    ensures st.selected.None? ==> r == (st, None)
    ensures st.selected.Some? ==>
              r.1 == Some((st.selected.value.id, DecisionBody(v, st.managerRating, st.comments))) && !r.0.processing
    ensures st.selected.Some? && result.Succeeded? ==>
              r.0.ratings == RemoveRating(st.ratings, st.selected.value.id) && r.0.selected.None? && r.0.error.None?
    ensures st.selected.Some? && result.CallFailed? ==> r.0 == st.(error := Some(result.message), processing := false)
  {
    match st.selected
    case None => (st, None)
    case Some(selected) =>
      var sent := Some((selected.id, DecisionBody(v, st.managerRating, st.comments)));
      match result
      case Succeeded =>
        (st.(ratings := RemoveRating(st.ratings, selected.id), selected := None, error := None, processing := false), sent)
      case CallFailed(message) => (st.(error := Some(message), processing := false), sent)
  }

  /** When ids are unique, a successful decision shortens the list by exactly one for a
      listed rating. */
  lemma DecidedRatingLeavesOnce(ratings: seq<PendingRating>, k: nat)
    requires k < |ratings|
    requires forall j :: 0 <= j < |ratings| && j != k ==> ratings[j].id != ratings[k].id
    ensures |RemoveRating(ratings, ratings[k].id)| == |ratings| - 1
  {
    var id := ratings[k].id;
    FilterSplit(ratings, Not(OtherRating(id)));
    OnlyOneMatches(ratings, k, Not(OtherRating(id)));
    FilterSame(ratings, Not(Not(OtherRating(id))), OtherRating(id));
  }
}
