/** The admin's skill-request page (frontend/src/app/admin/skill-request/page.tsx): the
    status filter, the status counts and the status update, which marks the request it
    works on while the call runs. The page is an object whose fields the handlers set;
    the API calls are parameters. */
module AdminSkillRequestPage {
  import opened Common
  import opened Ui

  const ALL: string := "ALL"

  datatype SkillRequest = SkillRequest(id: int, level: string, status: string)

  function StatusOf(r: SkillRequest): string {
    r.status
  }

  function WithStatus(status: string): SkillRequest -> bool {
    (r: SkillRequest) => r.status == status
  }

  /** The Approve and Reject buttons (line 293) are offered only for PENDING requests. */
  function OffersActions(r: SkillRequest): bool {
    r.status == "PENDING"
  }

  class Page {
    var requests: seq<SkillRequest>
    var loading: bool
    var processingId: Option<int>
    var filterStatus: string

    constructor ()
      ensures requests == [] && loading && processingId.None? && filterStatus == ALL
    {
      requests := [];
      loading := true;
      processingId := None;
      filterStatus := ALL;
    }

    /** `load` (lines 47-57): the reply replaces the list; a failure leaves it as it
        was. */
    method Load(reply: Reply<seq<SkillRequest>>)
      modifies this
      ensures reply.Replied? ==> requests == reply.value
      ensures reply.Failed? ==> requests == old(requests)
      ensures !loading && processingId == old(processingId) && filterStatus == old(filterStatus)
    {
      loading := true;
      if reply.Replied? {
        requests := reply.value;
      }
      loading := false;
    }

    /** `handleStatusUpdate` (lines 59-69): the request is marked while the update runs
        (`marked` is the mark the call sees), the list is reloaded after a success, and
        the mark is cleared either way. */
    method HandleStatusUpdate(id: int, status: string, api: (int, string) -> CallResult, reload: Reply<seq<SkillRequest>>)
      returns (marked: Option<int>)
      modifies this
      ensures marked == Some(id)
      ensures processingId.None?
      ensures api(id, status).Succeeded? && reload.Replied? ==> requests == reload.value
      ensures api(id, status).CallFailed? || reload.Failed? ==> requests == old(requests)
      ensures api(id, status).Succeeded? ==> !loading
      ensures api(id, status).CallFailed? ==> loading == old(loading)
      ensures filterStatus == old(filterStatus)
    {
      processingId := Some(id);
      marked := processingId;
      var result := api(id, status);
      if result.Succeeded? {
        Load(reload);
      }
      processingId := None;
    }

    /** `filteredRequests` (lines 98-101). */
    function FilteredRequests(): (r: seq<SkillRequest>)
      reads this
      ensures SubseqOf(r, requests)
      ensures filterStatus == ALL ==> r == requests
      ensures filterStatus != ALL ==> forall x :: x in r <==> x in requests && x.status == filterStatus
    {
      WhereKey(requests, StatusOf, filterStatus, ALL)
    }

    /** The three counts (lines 103-105). */
    function Counts(): (r: (nat, nat, nat))
      reads this
      ensures r == (|Filter(requests, WithStatus("PENDING"))|, |Filter(requests, WithStatus("APPROVED"))|,
                    |Filter(requests, WithStatus("REJECTED"))|)
      ensures r.0 + r.1 + r.2 <= |requests|
    {
      ExclusiveCounts(requests, WithStatus("PENDING"), WithStatus("APPROVED"), WithStatus("REJECTED"));
      (|Filter(requests, WithStatus("PENDING"))|, |Filter(requests, WithStatus("APPROVED"))|,
       |Filter(requests, WithStatus("REJECTED"))|)
    }
  }

  /** With every status one of the three the type declares, the counts add up to the
      number of requests. */
  lemma CountsAddUp(page: Page)
    requires forall i :: 0 <= i < |page.requests| ==> page.requests[i].status in {"PENDING", "APPROVED", "REJECTED"}
    ensures page.Counts().0 + page.Counts().1 + page.Counts().2 == |page.requests|
  {
    ExclusiveCounts(page.requests, WithStatus("PENDING"), WithStatus("APPROVED"), WithStatus("REJECTED"));
  }

  /** The requests offering actions are exactly those the PENDING filter shows, and as
      many as the pending count. */
  lemma ActionsOnlyWhilePending(requests: seq<SkillRequest>)
    ensures Filter(requests, OffersActions) == Filter(requests, WithStatus("PENDING"))
  {
    FilterSame(requests, OffersActions, WithStatus("PENDING"));
  }
}
