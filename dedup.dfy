/**
 * The review deduplication in `run()`: the fetched reviews are reversed in
 * place, then a review is pushed onto `uniqueByUserReviews` only when no
 * review already there has the same `user?.login`. The latest review of each
 * author is kept. Reviews whose author was deleted all share the absent
 * login, so only the latest of them is kept.
 */
module Dedup {
  import opened Wrappers
  import opened Sequences
  import opened Status

  /** `review.user?.login`, the key reviews are deduplicated by. */
  function UserOf(r: Review): Option<string> {
    r.user
  }

  /** The reviews kept, given the reviews in submission order. */
  function LatestPerUser(reviews: seq<Review>): seq<Review> {
    FirstByKey(Reversed(reviews), UserOf)
  }

  /** `reviews[k]` is the last review of its author. */
  ghost predicate IsLatestAt(reviews: seq<Review>, k: int) {
    0 <= k < |reviews| && forall m :: k < m < |reviews| ==> reviews[m].user != reviews[k].user
  }

  /** The `for` loop: scans `ordered`, keeping a review when its author has none kept yet. */
  method KeepFirstPerUser(ordered: seq<Review>) returns (unique: seq<Review>)
    ensures unique == FirstByKey(ordered, UserOf)
  {
    unique := [];
    for i := 0 to |ordered|
      invariant unique == FirstByKey(ordered[..i], UserOf)
    {
      var review := ordered[i];
      var found := Find(unique, (u: Review) => u.user == review.user);
      assert ordered[..i + 1][..i] == ordered[..i];
      if found.None? {
        unique := unique + [review];
      }
    }
    assert ordered[..|ordered|] == ordered;
  }

  /** The whole step: `reviews.reverse()` in place, then the loop over the reversed array. */
  method UniqueByUserReviews(reviews: array<Review>) returns (unique: seq<Review>)
    modifies reviews
    ensures reviews[..] == Reversed(old(reviews[..]))
    ensures unique == LatestPerUser(old(reviews[..]))
  {
    ReverseInPlace(reviews);
    unique := KeepFirstPerUser(reviews[..]);
  }

  lemma ReversedAll<T>(s: seq<T>)
    ensures forall i :: 0 <= i < |s| ==> Reversed(s)[i] == s[|s| - 1 - i]
  {
    forall i | 0 <= i < |s|
      ensures Reversed(s)[i] == s[|s| - 1 - i]
    {
      ReversedAt(s, i);
    }
  }

  /** No two kept reviews have the same author (absent authors included). */
  lemma AtMostOnePerUser(reviews: seq<Review>)
    ensures var unique := LatestPerUser(reviews);
            forall i, j :: 0 <= i < j < |unique| ==> unique[i].user != unique[j].user
  {
    FirstByKeyDistinct(Reversed(reviews), UserOf);
  }

  /** Every author of a review, absent ones included, keeps a review. */
  lemma EveryUserKept(reviews: seq<Review>)
    ensures var unique := LatestPerUser(reviews);
            forall i :: 0 <= i < |reviews| ==> exists j :: 0 <= j < |unique| && unique[j].user == reviews[i].user
  {
    var rev := Reversed(reviews);
    ReversedAll(reviews);
    forall i | 0 <= i < |reviews|
      ensures exists j :: 0 <= j < |LatestPerUser(reviews)| && LatestPerUser(reviews)[j].user == reviews[i].user
    {
      var k := |reviews| - 1 - i;
      assert UserOf(rev[k]) == reviews[i].user;
      FirstByKeyKeys(rev, UserOf, reviews[i].user);
      var j :| 0 <= j < |LatestPerUser(reviews)| && UserOf(LatestPerUser(reviews)[j]) == reviews[i].user;
    }
  }

  /** Only fetched reviews are kept, newest first. */
  lemma KeptAreFetched(reviews: seq<Review>)
    ensures forall r :: r in LatestPerUser(reviews) ==> r in reviews
    ensures IsSubsequence(LatestPerUser(reviews), Reversed(reviews))
  {
    var rev := Reversed(reviews);
    ReversedAll(reviews);
    FirstByKeyIsSubsequence(rev, UserOf);
    forall r | r in LatestPerUser(reviews)
      ensures r in reviews
    {
      assert r in rev;
      var k :| 0 <= k < |rev| && rev[k] == r;
      assert reviews[|reviews| - 1 - k] == r;
    }
  }

  /** The review kept for an author is that author's last review. */
  lemma KeptIsLatest(reviews: seq<Review>)
    ensures var unique := LatestPerUser(reviews);
            forall j, k :: 0 <= j < |unique| && IsLatestAt(reviews, k) && reviews[k].user == unique[j].user
                           ==> reviews[k] == unique[j]
  {
    var rev := Reversed(reviews);
    var unique := LatestPerUser(reviews);
    ReversedAll(reviews);
    FirstByKeyFirst(rev, UserOf);
    forall j, k | 0 <= j < |unique| && IsLatestAt(reviews, k) && reviews[k].user == unique[j].user
      ensures reviews[k] == unique[j]
    {
      var k' := |reviews| - 1 - k;
      assert rev[k'] == reviews[k];
      forall m | 0 <= m < k'
        ensures UserOf(rev[m]) != UserOf(rev[k'])
      {
        assert rev[m] == reviews[|reviews| - 1 - m];
      }
      assert FirstOfKeyAt(rev, UserOf, k');
    }
  }
}
