/**
 * The decision pipeline of `run()`, from the fetched pull request, reviews
 * and review requests to the labels to add and remove. The fetches, the
 * logging and the label calls are left to the caller.
 */
module Triage {
  import opened Wrappers
  import opened Sequences
  import opened StoryIds
  import opened Status
  import opened Dedup
  import opened Labels
  import opened Reconcile

  /** The fields of the fetched pull request that `run()` reads. */
  datatype PullRequest = PullRequest(
    number: nat,
    title: string,
    body: Option<string>,
    state: string,
    draft: bool,
    mergeableState: string,
    labels: seq<Label>,
    headRef: string)

  /**
   * The number a string of decimal digits denotes, most significant digit
   * first (a character that is no digit counts as 0).
   */
  function DigitsValue(s: string): nat {
    if s == [] then 0
    else
      var c := s[|s| - 1];
      DigitsValue(s[..|s| - 1]) * 10 + (if IsAsciiDigit(c) then c as int - '0' as int else 0)
  }

  /** The decimal notation JavaScript uses for a non-negative integer. */
  function DecimalString(n: nat): (s: string)
    ensures |s| >= 1 && forall i :: 0 <= i < |s| ==> IsAsciiDigit(s[i])
    ensures DigitsValue(s) == n
    ensures n > 0 ==> s[0] != '0'
  {
    var d := ('0' as int + n % 10) as char;
    if n < 10 then [d]
    else
      var prefix := DecimalString(n / 10);
      assert (prefix + [d])[..|prefix|] == prefix;
      prefix + [d]
  }

  /** `${number} ${title} ${body} ${ref}`; a null body prints as "null". */
  function Content(pr: PullRequest): string {
    DecimalString(pr.number) + " " + pr.title + " " + pr.body.GetOr("null") + " " + pr.headRef
  }

  /** The labels the pull request should carry, given its deduplicated reviews. */
  function DesiredLabels(pr: PullRequest, unique: seq<Review>, requested: Requested): seq<Label> {
    var review := ReviewStatus(pr.draft, pr.state, unique, requested);
    ComputedLabels(ComputedStatuses(review, MergeStatus(pr.mergeableState)))
  }

  /**
   * At most two labels are desired, all managed, with distinct names, so
   * the label list needs no deduplication by name.
   */
  lemma DesiredLabelsShape(pr: PullRequest, unique: seq<Review>, requested: Requested)
    ensures var desired := DesiredLabels(pr, unique, requested);
            |desired| <= 2 &&
            (forall l :: l in desired ==> IsManaged(l.name)) &&
            (forall i, j :: 0 <= i < j < |desired| ==> desired[i].name != desired[j].name)
  {
    var review := ReviewStatus(pr.draft, pr.state, unique, requested);
    var merge := MergeStatus(pr.mergeableState);
    var statuses := ComputedStatuses(review, merge);
    ComputedStatusesShape(pr.draft, pr.state, unique, requested, pr.mergeableState);
    assert forall i, j :: 0 <= i < j < |statuses| ==> statuses[i] != statuses[j] by {
      if |statuses| == 2 {
        assert statuses[0] == review && statuses[1] == ToRebase;
      }
    }
    ComputedLabelNamesDistinct(statuses);
    ComputedLabelsAreManaged(statuses);
  }

  /**
   * `run()` after the fetches: the story ids it logs, then the review
   * deduplication (which reverses `reviews` in place), the statuses, and
   * the label changes.
   */
  method Triage(pr: PullRequest, reviews: array<Review>, requested: Requested)
    returns (storyIds: seq<string>, toAdd: seq<Label>, toRemove: seq<Label>)
    modifies reviews
    ensures storyIds == ExtractStoryIds(Content(pr))
    ensures reviews[..] == Reversed(old(reviews[..]))
    ensures var desired := DesiredLabels(pr, LatestPerUser(old(reviews[..])), requested);
            toAdd == LabelsToAdd(desired, pr.labels) && toRemove == LabelsToRemove(pr.labels, desired)
    ensures var desired := DesiredLabels(pr, LatestPerUser(old(reviews[..])), requested);
            forall name :: HasName(Applied(pr.labels, toAdd, toRemove), name) <==>
                           if IsManaged(name) then HasName(desired, name) else HasName(pr.labels, name)
  {
    storyIds := ExtractStoryIds(Content(pr));
    var unique := UniqueByUserReviews(reviews);
    var reviewStatus := ReviewStatus(pr.draft, pr.state, unique, requested);
    var mergeStatus := MergeStatus(pr.mergeableState);
    var computedStatuses := ComputedStatuses(reviewStatus, mergeStatus);
    var computedLabels := ComputedLabels(computedStatuses);
    toAdd := ToAddLabels(computedLabels, pr.labels);
    toRemove := ToRemoveLabels(pr.labels, computedLabels);
    DesiredLabelsShape(pr, unique, requested);
    forall name | true
      ensures HasName(Applied(pr.labels, toAdd, toRemove), name) <==>
              if IsManaged(name) then HasName(computedLabels, name) else HasName(pr.labels, name)
    {
      ReconcileRoundTrip(pr.labels, computedLabels, name);
    }
  }

  /** Both axes fire together: an approved, conflicting pull request wants both labels. */
  lemma BothAxesFire(pr: PullRequest, unique: seq<Review>, requested: Requested)
    requires !ExcludedFromReview(pr.draft, pr.state)
    requires !HasBlockingChangeRequest(unique, requested) && !HasPendingRequest(requested)
    requires HasApproval(unique) && pr.mergeableState == Conflicting
    ensures DesiredLabels(pr, unique, requested) == [ToMergeLabel, ToRebaseLabel]
  {
    assert ReviewStatus(pr.draft, pr.state, unique, requested) == ToMerge;
    assert [ToMerge, ToRebase][..1] == [ToMerge];
    assert ComputedStatuses(ToMerge, ToRebase) == [ToMerge, ToRebase];
  }

  /** A draft is only labelled for a merge conflict, whatever its reviews. */
  lemma DraftGetsNoReviewLabel(pr: PullRequest, unique: seq<Review>, requested: Requested)
    requires pr.draft
    ensures DesiredLabels(pr, unique, requested) ==
            if pr.mergeableState == Conflicting then [ToRebaseLabel] else []
  {
    assert [Other, ToRebase][..1] == [Other];
  }
}
