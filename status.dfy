/**
 * The pull request's status on two axes: the review axis (the early-return
 * chain computing `reviewStatus` in `run()`) and the merge axis
 * (`mergeStatus`), combined into `computedStatuses`.
 */
module Status {
  import opened Wrappers
  import opened Sequences

  /** `PRStatus`: the status codes a pull request can be given. */
  datatype PRStatus = ToReview | ToChange | ToMerge | ToRebase | Other

  /** A submitted review: its author's login (absent for a deleted account) and its state. */
  datatype Review = Review(user: Option<string>, state: string)

  /** The pending review requests: the logins of requested users and the requested teams. */
  datatype Requested = Requested(users: seq<string>, teams: seq<string>)

  const ChangesRequested := "CHANGES_REQUESTED"
  const Approved := "APPROVED"
  const Open := "open"
  const Conflicting := "CONFLICTING"

  /** A draft or a pull request that is not open is not triaged on the review axis. */
  predicate ExcludedFromReview(draft: bool, state: string) {
    draft || state != Open
  }

  /**
   * The review's author is among the requested users (teams are not
   * consulted); a review without an author never is.
   */
  predicate IsReRequested(user: Option<string>, requested: Requested) {
    user.Some? && user.value in requested.users
  }

  /** A review asking for changes whose author has not been asked to review again. */
  predicate BlocksOnChanges(r: Review, requested: Requested) {
    r.state == ChangesRequested && !IsReRequested(r.user, requested)
  }

  predicate HasBlockingChangeRequest(reviews: seq<Review>, requested: Requested) {
    exists i :: 0 <= i < |reviews| && BlocksOnChanges(reviews[i], requested)
  }

  /** Some user or team has a pending review request. */
  predicate HasPendingRequest(requested: Requested) {
    |requested.users| > 0 || |requested.teams| > 0
  }

  predicate HasApproval(reviews: seq<Review>) {
    exists i :: 0 <= i < |reviews| && reviews[i].state == Approved
  }

  /**
   * `reviewStatus`: the first rule that fires decides. Not triaged gives
   * Other; then a blocking change request gives ToChange; then a pending
   * request gives ToReview; then an approval gives ToMerge; else Other.
   */
  function ReviewStatus(draft: bool, state: string, reviews: seq<Review>, requested: Requested): (status: PRStatus)
    ensures status != ToRebase
    ensures ExcludedFromReview(draft, state) ==> status == Other
  {
    if ExcludedFromReview(draft, state) then Other
    else if HasBlockingChangeRequest(reviews, requested) then ToChange
    else if HasPendingRequest(requested) then ToReview
    else if HasApproval(reviews) then ToMerge
    else Other
  }

  /** Each review-axis status, with the exact condition that produces it. */
  lemma ReviewStatusCases(draft: bool, state: string, reviews: seq<Review>, requested: Requested)
    ensures var status := ReviewStatus(draft, state, reviews, requested);
            var triaged := !ExcludedFromReview(draft, state);
            var blocking := HasBlockingChangeRequest(reviews, requested);
            var pending := HasPendingRequest(requested);
            (status == ToChange <==> triaged && blocking) &&
            (status == ToReview <==> triaged && !blocking && pending) &&
            (status == ToMerge <==> triaged && !blocking && !pending && HasApproval(reviews)) &&
            (status == Other <==> !triaged || (!blocking && !pending && !HasApproval(reviews)))
  {
  }

  /** A blocking change request wins over pending requests and approvals. */
  lemma ChangesRequestedTakesPrecedence(draft: bool, state: string, reviews: seq<Review>, requested: Requested, i: nat)
    requires !ExcludedFromReview(draft, state)
    requires i < |reviews| && reviews[i].state == ChangesRequested
    requires !IsReRequested(reviews[i].user, requested)
    ensures ReviewStatus(draft, state, reviews, requested) == ToChange
  {
  }

  /** Requesting a review from `login` again. */
  function ReRequest(requested: Requested, login: string): (r: Requested)
    ensures IsReRequested(Some(login), r) && HasPendingRequest(r)
    ensures forall u :: IsReRequested(u, requested) ==> IsReRequested(u, r)
  {
    Requested(requested.users + [login], requested.teams)
  }

  /**
   * Once the author of every change request has been asked to review again,
   * the ToChange status is lifted: the re-request itself is pending, so the
   * pull request waits for review.
   */
  lemma ReRequestedAuthorsLiftChanges(draft: bool, state: string, reviews: seq<Review>, requested: Requested)
    requires !ExcludedFromReview(draft, state)
    requires forall i :: 0 <= i < |reviews| && reviews[i].state == ChangesRequested ==>
                         IsReRequested(reviews[i].user, requested)
    requires exists i :: 0 <= i < |reviews| && reviews[i].state == ChangesRequested
    ensures !HasBlockingChangeRequest(reviews, requested)
    ensures ReviewStatus(draft, state, reviews, requested) == ToReview
  {
    var i :| 0 <= i < |reviews| && reviews[i].state == ChangesRequested;
    assert reviews[i].user.value in requested.users;
  }

  /**
   * The one-author case: when every change request comes from `login`,
   * requesting a review from `login` again lifts the ToChange status.
   */
  lemma ReRequestingLiftsChanges(draft: bool, state: string, reviews: seq<Review>, requested: Requested, login: string)
    requires !ExcludedFromReview(draft, state)
    requires forall r :: r in reviews && r.state == ChangesRequested ==> r.user == Some(login)
    ensures !HasBlockingChangeRequest(reviews, ReRequest(requested, login))
    ensures ReviewStatus(draft, state, reviews, ReRequest(requested, login)) == ToReview
  {
    var r' := ReRequest(requested, login);
    forall i | 0 <= i < |reviews| && reviews[i].state == ChangesRequested
      ensures IsReRequested(reviews[i].user, r')
    {
      assert reviews[i] in reviews;
    }
    if exists i :: 0 <= i < |reviews| && reviews[i].state == ChangesRequested {
      ReRequestedAuthorsLiftChanges(draft, state, reviews, r');
    }
  }

  /** A change request from a deleted account can never be lifted by re-requesting. */
  lemma AnonymousChangeRequestBlocks(draft: bool, state: string, reviews: seq<Review>, requested: Requested, i: nat)
    requires !ExcludedFromReview(draft, state)
    requires i < |reviews| && reviews[i] == Review(None, ChangesRequested)
    ensures forall login :: ReviewStatus(draft, state, reviews, ReRequest(requested, login)) == ToChange
  {
  }

  /** `mergeStatus`: a merge conflict asks for a rebase. */
  function MergeStatus(mergeableState: string): (status: PRStatus)
    ensures status == ToRebase <==> mergeableState == Conflicting
    ensures status == ToRebase || status == Other
  {
    if mergeableState == Conflicting then ToRebase else Other
  }

  function IsSet(status: PRStatus): bool {
    status != Other
  }

  /** `computedStatuses`: `[reviewStatus, mergeStatus]` without the Other entries. */
  function ComputedStatuses(review: PRStatus, merge: PRStatus): (statuses: seq<PRStatus>)
    ensures Other !in statuses && |statuses| <= 2
    ensures forall s :: s in statuses <==> (s == review && review != Other) || (s == merge && merge != Other)
  {
    Filter([review, merge], IsSet)
  }

  /**
   * The combined statuses never hold Other, hold at most one status per
   * axis, and list the review axis first.
   */
  lemma ComputedStatusesShape(draft: bool, state: string, reviews: seq<Review>, requested: Requested, mergeableState: string)
    ensures var review := ReviewStatus(draft, state, reviews, requested);
            var merge := MergeStatus(mergeableState);
            var statuses := ComputedStatuses(review, merge);
            Other !in statuses && |statuses| <= 2 &&
            (forall s :: s in statuses <==> (s == review && review != Other) || (s == merge && merge != Other)) &&
            (ToRebase in statuses <==> mergeableState == Conflicting) &&
            (review != Other ==> statuses[0] == review) &&
            (merge != Other ==> statuses[|statuses| - 1] == ToRebase)
  {
    var review := ReviewStatus(draft, state, reviews, requested);
    var merge := MergeStatus(mergeableState);
    assert [review, merge][..1] == [review];
    assert [review, merge][..0] == [];
  }
}
