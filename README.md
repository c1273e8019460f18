# Pull-request review-status labeler: a verified model of its decision core

The labeler is a GitHub Action. On every pull-request event it reads the pull
request, its reviews and its pending review requests. It classifies the pull
request on two axes and keeps one status label per axis on the pull request.

- Review axis: to change, to review or to merge.
- Merge axis: to rebase.

It also logs the Clubhouse story ids found in the pull request's number,
title, body and branch name.

This project models the decision pipeline inside `run()` in `src/main.ts`,
as Dafny modules:

- `Sequences`: the JavaScript array operations the pipeline uses.
  - `Find` is `Array.prototype.find`.
  - `Filter` is `Array.prototype.filter`.
  - `ReverseInPlace` is the in-place `reverse()`.
  - `FirstByKey` is "keep the first element per key". The dedup loop computes it, and so does `[...new Set(all)]` (`Unique`).
- `StoryIds`: `extractStoryIds`, the scan of the global expression `(?<=ch)\d{1,7}`, then deduplication.
- `Status`: the review-status early-return chain, the merge status, and `computedStatuses`.
- `Dedup`: the review deduplication. The reviews array is reversed in place, then a `for` loop keeps the first review per `user?.login`. The reviewer's login is an `Option<string>`.
- `Labels`: `defaultLabelMap`, the managed label names, and `computedLabels`.
- `Reconcile`: the `toAddLabels` and `toRemoveLabels` loops, as methods proved against filter specifications. It also holds what the label set looks like once the changes are applied.
- `Triage`: the pipeline of `run()` after the fetches, and a few whole-pipeline facts.

Some behaviours of the code are easy to misread. The model keeps them as written:

- Absent logins compare equal (`undefined === undefined`). Reviews from all deleted accounts therefore collapse into one, and only the latest of them is kept.
- The "re-requested after asking for changes" check looks only at requested users, never at teams.
- The rebase status fires only for the literal mergeable state `"CONFLICTING"`.
- The computed labels are not deduplicated by name. `Triage.DesiredLabelsShape` proves they never share a name.
- `run()` checks `if (!computedLabel) continue` in the `toAddLabels` loop. The model has no such branch: `computedLabels` has already been filtered with `Boolean`, so it never holds null and the branch is dead.

## Model

| member | source | states |
|---|---|---|
| `Sequences.Find` | src/main.ts:128-130 | `find` returns an element iff some element satisfies the predicate; it is the first such element |
| `Sequences.Filter` | src/main.ts:188-190 | `filter` keeps exactly the elements satisfying the predicate and never grows the array |
| `Sequences.FilterIsSubsequence` | src/main.ts:215-217 | `filter` keeps the elements in their original order |
| `Sequences.ReverseInPlace` | src/main.ts:126 | `reviews.reverse()` leaves the array holding the old contents in reverse order |
| `Sequences.FirstByKey` | src/main.ts:125-134 | the keep-first-per-key scan keeps no more elements than it reads, all taken from the input |
| `Sequences.FirstByKeyDistinct` | src/main.ts:127-133 | no two kept elements share a key |
| `Sequences.FirstByKeyKeys` | src/main.ts:127-133 | a key occurs among the kept elements iff it occurs in the input |
| `Sequences.FirstByKeyFirst` | src/main.ts:127-133 | the element kept for a key is the first input element with that key |
| `Sequences.FirstByKeyOrder` | src/main.ts:127-133 | kept elements appear in the order their keys first occur |
| `Sequences.FirstByKeyIsSubsequence` | src/main.ts:127-133 | the kept elements are a subsequence of the input |
| `Sequences.UniqueSpec` | src/main.ts:29 | `[...new Set(all)]` holds each value of `all` exactly once, in order of first occurrence |
| `Sequences.Unique` | src/main.ts:29 | `[...new Set(all)]`; no contract of its own, its properties are stated by `Sequences.UniqueSpec` |
| `StoryIds.DigitRun` | src/main.ts:27 | `\d{1,7}` takes the longest run of ASCII digits, at most seven |
| `StoryIds.MatchesFrom` | src/main.ts:27-28 | every match of the global scan is 1 to 7 ASCII digits that stand right after "ch" in the content |
| `StoryIds.Match` | src/main.ts:28 | `match` gives null iff the scan finds nothing, and otherwise the non-empty array of all matches |
| `StoryIds.ExtractStoryIds` | src/main.ts:26-31 | every id is 1 to 7 digits right after "ch"; no id repeats; no match gives `[]` |
| `StoryIds.StoryIdsAreFirstOccurrences` | src/main.ts:28-30 | the ids are exactly the matches, each once, in order of first occurrence |
| `StoryIds.MatchesAreTaggedRuns` | src/main.ts:27-28 | each match of the scan is the whole greedy digit run at some position right after "ch" |
| `StoryIds.ScanReaches` | src/main.ts:27-28 | a scan started at or before a digit that follows "ch" finds the id that begins there |
| `StoryIds.EveryTaggedRunIsFound` | src/main.ts:26-31 | every digit run right after "ch" contributes its first seven digits as an id |
| `StoryIds.StoryIdsAreTaggedRuns` | src/main.ts:26-31 | the ids are exactly the whole greedy runs of one to seven digits right after "ch"; a shorter piece of such a run is no id |
| `StoryIds.BranchNameExample` | src/main.ts:27 | no word boundary is needed: "branch42" yields "42" |
| `StoryIds.SevenDigitCapExample` | src/main.ts:27 | "ch12345678" yields only "1234567" |
| `Status.ReviewStatus` | src/main.ts:154-183 | the review status is never to-rebase; a draft or non-open pull request gets Other |
| `Status.ReviewStatusCases` | src/main.ts:154-183 | each of the four review statuses holds iff its rule is the first that fires |
| `Status.ChangesRequestedTakesPrecedence` | src/main.ts:159-170 | a change request whose author is not re-requested gives to-change, whatever the requests and approvals |
| `Status.ReRequestedAuthorsLiftChanges` | src/main.ts:159-177 | once the author of every change request is among the requested users, no change request blocks and the status becomes to-review |
| `Status.ReRequestingLiftsChanges` | src/main.ts:159-177 | the one-author case: when every change request comes from one login, requesting that login again makes the status to-review |
| `Status.AnonymousChangeRequestBlocks` | src/main.ts:163-165 | a change request from a deleted account is never lifted by re-requesting anybody |
| `Status.MergeStatus` | src/main.ts:185-186 | the merge status is to-rebase iff the mergeable state is "CONFLICTING", else Other |
| `Status.ComputedStatuses` | src/main.ts:188-190 | the combined statuses are at most two, never Other, and hold exactly the review and merge statuses that are not Other |
| `Status.ComputedStatusesShape` | src/main.ts:185-190 | the combined statuses hold no Other, at most two entries, the review status first and the rebase status last |
| `Dedup.LatestPerUser` | src/main.ts:125-134 | the reviews kept; no contract of its own, its properties are stated by `Dedup.UniqueByUserReviews`, `Dedup.AtMostOnePerUser`, `Dedup.EveryUserKept`, `Dedup.KeptAreFetched` and `Dedup.KeptIsLatest` |
| `Dedup.KeepFirstPerUser` | src/main.ts:126-134 | the push loop keeps exactly the first review per author of the array it scans |
| `Dedup.UniqueByUserReviews` | src/main.ts:125-134 | the array ends reversed and the result is the latest review per author |
| `Dedup.AtMostOnePerUser` | src/main.ts:125-134 | at most one review is kept per login, absent logins counting as one |
| `Dedup.EveryUserKept` | src/main.ts:125-134 | every author of a fetched review has a kept review |
| `Dedup.KeptAreFetched` | src/main.ts:125-134 | only fetched reviews are kept, newest first |
| `Dedup.KeptIsLatest` | src/main.ts:125-134 | the review kept for an author is that author's last review |
| `Labels.DefaultLabelMap` | src/main.ts:36-42 | only Other has no label |
| `Labels.MappedLabels` | src/main.ts:214 | `Object.values(labelMap)`; no contract of its own, `Labels.ManagedIffMapped` states what it yields |
| `Labels.IsManaged` | src/main.ts:214-217 | a name is managed when some mapped label has it; no contract of its own, `Labels.ManagedIffMapped` states it |
| `Labels.ManagedIffMapped` | src/main.ts:214-217 | a name is managed iff it is the name of some status's label |
| `Labels.LabelNamesDistinct` | src/main.ts:36-42 | no two statuses share a label name |
| `Labels.ComputedLabels` | src/main.ts:193-196 | the computed labels are exactly the labels of the statuses; there is one per status when Other is absent |
| `Labels.ComputedLabelsAreManaged` | src/main.ts:193-196 | every computed label has a managed name |
| `Labels.ComputedLabelNamesDistinct` | src/main.ts:193-196 | distinct statuses give labels with distinct names |
| `Reconcile.LabelsToAdd` | src/main.ts:198-206 | the labels to add; no contract of its own, its properties are stated by `Reconcile.LabelsToAddSpec` |
| `Reconcile.CurrentSyncedLabels` | src/main.ts:215-217 | `currentSyncedLabels`; no contract of its own, `Reconcile.LabelsToRemoveSpec` states its effect |
| `Reconcile.LabelsToRemove` | src/main.ts:213-222 | the labels to remove; no contract of its own, its properties are stated by `Reconcile.LabelsToRemoveSpec` |
| `Reconcile.LabelsToAddSpec` | src/main.ts:198-206 | a label is added iff it is computed and no current label has its name; computed order is kept |
| `Reconcile.LabelsToRemoveSpec` | src/main.ts:213-222 | a label is removed iff it is current, managed and not computed; current order is kept |
| `Reconcile.ToAddLabels` | src/main.ts:198-206 | the loop computes the labels to add, so no label already present is added |
| `Reconcile.ToRemoveLabels` | src/main.ts:213-222 | the loop computes the labels to remove, so an unmanaged label is never removed |
| `Reconcile.ReconcileRoundTrip` | src/main.ts:193-222 | after the changes the managed names are exactly the computed names and the unmanaged names are unchanged |
| `Triage.DecimalString` | src/main.ts:115 | the number prints as a non-empty string of digits, without a leading zero, whose decimal value is the number |
| `Triage.Content` | src/main.ts:115 | the text searched for story ids; no contract of its own, `Triage.Triage` states the ids are taken from it |
| `Triage.DesiredLabels` | src/main.ts:185-196 | the labels the pull request should carry; no contract of its own, its properties are stated by `Triage.DesiredLabelsShape`, `Triage.BothAxesFire` and `Triage.DraftGetsNoReviewLabel` |
| `Triage.DesiredLabelsShape` | src/main.ts:185-196 | at most two labels are computed, all managed, with distinct names |
| `Triage.Triage` | src/main.ts:115-222 | the pipeline logs the story ids, reverses the reviews, and returns the label changes that bring the managed labels to the computed ones |
| `Triage.BothAxesFire` | src/main.ts:154-196 | an open pull request with an approval, no pending request, no blocking change request and a conflict gets the to-merge and to-rebase labels, in that order |
| `Triage.DraftGetsNoReviewLabel` | src/main.ts:154-196 | a draft gets at most the to-rebase label, whatever its reviews |

## Left out

- The token check, `process.exit` and the Octokit client (src/main.ts:4-12) are environment setup.
- The event payload check `if (!pull_request) return` and the fetches (`pulls.get`, `listReviews`, `listRequestedReviewers`) are left out. Their results are the parameters of `Triage.Triage`.
- `addLabels` lists and creates repository labels, then adds labels. `removeLabels` removes labels concurrently. Both are network calls and are not modelled. `Reconcile.Applied` stands for their combined effect on the pull request's label names.
- Logging (`core.info`) and the `try`/`catch` that reports failures through `core.setFailed` are left out. The story ids are returned instead of logged.
- The model keeps only the fields the pipeline reads. Reviews carry only the author's login and the state. Requested users are their logins; requested teams matter only by their count.
- Label names and colours are opaque strings. Only their values and their distinctness matter.
- Regular expressions in general are not modelled. Only the scan of `(?<=ch)\d{1,7}` with the `g` flag is modelled. Characters are Unicode scalar values rather than UTF-16 code units. This does not change the result, because "c", "h" and the ASCII digits are single code units.
