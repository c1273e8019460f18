/**
 * The JavaScript array operations the labeler relies on (`find`, `filter`,
 * in-place `reverse`), and "keep the first element per key", which is what
 * both the review deduplication loop and `[...new Set(all)]` compute.
 */
module Sequences {
  import opened Wrappers

  /** `Array.prototype.find`: the first element satisfying `p`, if any. */
  function Find<T>(s: seq<T>, p: T -> bool): (r: Option<T>)
    ensures r.Some? <==> exists i :: 0 <= i < |s| && p(s[i])
    ensures r.Some? ==> exists i :: 0 <= i < |s| && s[i] == r.value && p(s[i]) &&
                                    forall j :: 0 <= j < i ==> !p(s[j])
    decreases |s|
  {
    if s == [] then None
    else if p(s[0]) then Some(s[0])
    else
      var r := Find(s[1..], p);
      assert forall i :: 0 < i < |s| ==> s[i] == s[1..][i - 1];
      r
  }

  /** `Array.prototype.filter`: the elements satisfying `p`, in their order. */
  function Filter<T(!new)>(s: seq<T>, p: T -> bool): (r: seq<T>)
    ensures |r| <= |s|
    ensures forall x :: x in r <==> x in s && p(x)
    decreases |s|
  {
    if s == [] then []
    else
      var init := s[..|s| - 1];
      assert s == init + [s[|s| - 1]];
      Filter(init, p) + (if p(s[|s| - 1]) then [s[|s| - 1]] else [])
  }

  /** The conjunction of two element predicates. */
  function Both<T>(p: T -> bool, q: T -> bool): T -> bool {
    x => p(x) && q(x)
  }

  /** `r` can be obtained from `s` by deleting elements (order is kept). */
  ghost predicate IsSubsequence<T>(r: seq<T>, s: seq<T>)
    decreases |s|
  {
    if r == [] then true
    else if s == [] then false
    else (r[|r| - 1] == s[|s| - 1] && IsSubsequence(r[..|r| - 1], s[..|s| - 1]))
         || IsSubsequence(r, s[..|s| - 1])
  }

  /** Extending a subsequence and its host by one element each. */
  lemma SubsequenceSnoc<T>(r: seq<T>, s: seq<T>, x: T)
    requires IsSubsequence(r, s)
    ensures IsSubsequence(r + [x], s + [x])
    ensures IsSubsequence(r, s + [x])
  {
    assert (r + [x])[..|r|] == r;
    assert (s + [x])[..|s|] == s;
  }

  lemma {:induction false} FilterIsSubsequence<T(!new)>(s: seq<T>, p: T -> bool)
    ensures IsSubsequence(Filter(s, p), s)
    decreases |s|
  {
    if s != [] {
      var init, x := s[..|s| - 1], s[|s| - 1];
      assert s == init + [x];
      var fi := Filter(init, p);
      FilterIsSubsequence(init, p);
      SubsequenceSnoc(fi, init, x);
      if p(x) {
        assert Filter(s, p) == fi + [x];
      } else {
        assert Filter(s, p) == fi;
      }
    }
  }

  /** Filtering by one predicate and then by another is filtering by both. */
  lemma {:induction false} FilterFilter<T(!new)>(s: seq<T>, p: T -> bool, q: T -> bool)
    ensures Filter(Filter(s, p), q) == Filter(s, Both(p, q))
    decreases |s|
  {
    if s != [] {
      var init, x := s[..|s| - 1], s[|s| - 1];
      FilterFilter(init, p, q);
      var fp := Filter(init, p);
      if p(x) {
        assert Filter(s, p) == fp + [x];
        assert (fp + [x])[..|fp|] == fp;
      } else {
        assert Filter(s, p) == fp;
      }
    }
  }

  /** The sequence in the opposite order. */
  function Reversed<T>(s: seq<T>): (r: seq<T>)
    ensures |r| == |s|
    decreases |s|
  {
    if s == [] then [] else Reversed(s[1..]) + [s[0]]
  }

  lemma {:induction false} ReversedAt<T>(s: seq<T>, i: nat)
    requires i < |s|
    ensures Reversed(s)[i] == s[|s| - 1 - i]
    decreases |s|
  {
    if i < |s| - 1 {
      ReversedAt(s[1..], i);
    }
  }

  /** `Array.prototype.reverse`: reverses the array in place. */
  method ReverseInPlace<T>(a: array<T>)
    modifies a
    ensures a[..] == Reversed(old(a[..]))
  {
    ghost var before := a[..];
    var lo, hi := 0, a.Length;
    while lo + 1 < hi
      invariant 0 <= lo && lo + hi == a.Length && lo <= hi
      invariant forall k :: 0 <= k < lo ==> a[k] == before[a.Length - 1 - k]
      invariant forall k :: hi <= k < a.Length ==> a[k] == before[a.Length - 1 - k]
      invariant forall k :: lo <= k < hi ==> a[k] == before[k]
    {
      a[lo], a[hi - 1] := a[hi - 1], a[lo];
      lo, hi := lo + 1, hi - 1;
    }
    forall k | 0 <= k < a.Length
      ensures a[k] == Reversed(before)[k]
    {
      ReversedAt(before, k);
    }
  }

  /** Some element of `s` has key `k`. */
  predicate HasKey<T, K(==)>(s: seq<T>, key: T -> K, k: K) {
    exists i :: 0 <= i < |s| && key(s[i]) == k
  }

  /** `s[k]` is the first element of `s` with its key. */
  ghost predicate FirstOfKeyAt<T, K>(s: seq<T>, key: T -> K, k: int) {
    0 <= k < |s| && forall j :: 0 <= j < k ==> key(s[j]) != key(s[k])
  }

  /**
   * Scanning `s` left to right, appending an element only when no element
   * already kept has the same key.
   */
  function FirstByKey<T(!new), K(==)>(s: seq<T>, key: T -> K): (r: seq<T>)
    ensures |r| <= |s|
    ensures forall x :: x in r ==> x in s
    decreases |s|
  {
    if s == [] then []
    else
      var init, x := s[..|s| - 1], s[|s| - 1];
      assert s == init + [x];
      var kept := FirstByKey(init, key);
      if HasKey(kept, key, key(x)) then kept else kept + [x]
  }

  /** One step of FirstByKey: the last element is kept iff its key is new. */
  lemma FirstByKeyStep<T(!new), K>(s: seq<T>, key: T -> K)
    requires s != []
    ensures var kept := FirstByKey(s[..|s| - 1], key);
            FirstByKey(s, key) == if HasKey(kept, key, key(s[|s| - 1])) then kept else kept + [s[|s| - 1]]
  {
  }

  lemma {:induction false} FirstByKeyDistinct<T(!new), K>(s: seq<T>, key: T -> K)
    ensures forall i, j :: 0 <= i < j < |FirstByKey(s, key)| ==>
              key(FirstByKey(s, key)[i]) != key(FirstByKey(s, key)[j])
    decreases |s|
  {
    if s != [] {
      var init, x := s[..|s| - 1], s[|s| - 1];
      var kept := FirstByKey(init, key);
      FirstByKeyDistinct(init, key);
      FirstByKeyStep(s, key);
      if !HasKey(kept, key, key(x)) {
        var r := kept + [x];
        assert FirstByKey(s, key) == r;
        forall i, j | 0 <= i < j < |r|
          ensures key(r[i]) != key(r[j])
        {
          if j == |kept| {
            assert r[i] == kept[i] && r[j] == x;
          } else {
            assert r[i] == kept[i] && r[j] == kept[j];
          }
        }
      }
    }
  }

  lemma {:induction false} FirstByKeyKeys<T(!new), K>(s: seq<T>, key: T -> K, k: K)
    ensures HasKey(FirstByKey(s, key), key, k) <==> HasKey(s, key, k)
    decreases |s|
  {
    if s != [] {
      var init, x := s[..|s| - 1], s[|s| - 1];
      var kept := FirstByKey(init, key);
      var r := FirstByKey(s, key);
      FirstByKeyKeys(init, key, k);
      FirstByKeyKeys(init, key, key(x));
      FirstByKeyStep(s, key);
      if HasKey(s, key, k) {
        var i :| 0 <= i < |s| && key(s[i]) == k;
        if i < |s| - 1 {
          assert key(init[i]) == k;
          assert HasKey(kept, key, k);
          var m :| 0 <= m < |kept| && key(kept[m]) == k;
          assert r[m] == kept[m];
        } else if !HasKey(kept, key, key(x)) {
          assert r[|kept|] == x;
        } else {
          var m :| 0 <= m < |kept| && key(kept[m]) == key(x);
          assert r[m] == kept[m];
        }
      }
      if HasKey(r, key, k) {
        var i :| 0 <= i < |r| && key(r[i]) == k;
        if i < |kept| {
          assert r[i] == kept[i];
          assert HasKey(kept, key, k);
          var m :| 0 <= m < |init| && key(init[m]) == k;
          assert s[m] == init[m];
        } else {
          assert r[i] == s[|s| - 1];
        }
      }
    }
  }

  /** The element kept for a key is the first element of `s` with that key. */
  lemma {:induction false} FirstByKeyFirst<T(!new), K>(s: seq<T>, key: T -> K)
    ensures forall i, j ::
              0 <= i < |FirstByKey(s, key)| && FirstOfKeyAt(s, key, j) && key(s[j]) == key(FirstByKey(s, key)[i])
              ==> s[j] == FirstByKey(s, key)[i]
    decreases |s|
  {
    if s == [] {
      assert |FirstByKey(s, key)| == 0;
    } else {
      var init, x := s[..|s| - 1], s[|s| - 1];
      var kept := FirstByKey(init, key);
      var r := FirstByKey(s, key);
      FirstByKeyFirst(init, key);
      FirstByKeyStep(s, key);
      forall i, j | 0 <= i < |r| && FirstOfKeyAt(s, key, j) && key(s[j]) == key(r[i])
        ensures s[j] == r[i]
      {
        if i < |kept| {
          assert r[i] == kept[i] && kept[i] in init;
          var m :| 0 <= m < |init| && init[m] == kept[i];
          assert key(s[m]) == key(s[j]);
          assert j <= m;
          assert FirstOfKeyAt(init, key, j) && init[j] == s[j];
        } else {
          assert !HasKey(kept, key, key(x)) && r[i] == x;
          FirstByKeyKeys(init, key, key(x));
          assert forall m :: 0 <= m < |init| ==> key(s[m]) != key(x);
          assert j == |s| - 1;
        }
      }
    }
  }

  lemma {:induction false} FirstByKeyIsSubsequence<T(!new), K>(s: seq<T>, key: T -> K)
    ensures IsSubsequence(FirstByKey(s, key), s)
    decreases |s|
  {
    if s != [] {
      var init, x := s[..|s| - 1], s[|s| - 1];
      assert s == init + [x];
      FirstByKeyIsSubsequence(init, key);
      FirstByKeyStep(s, key);
      SubsequenceSnoc(FirstByKey(init, key), init, x);
    }
  }

  /** Some element with key `a` comes before the first element with key `b`. */
  ghost predicate KeyOccursBefore<T, K>(s: seq<T>, key: T -> K, a: K, b: K) {
    exists k :: 0 <= k < |s| && key(s[k]) == a && forall m :: 0 <= m <= k ==> key(s[m]) != b
  }

  lemma {:induction false} FirstByKeyOrder<T(!new), K>(s: seq<T>, key: T -> K)
    ensures forall i, j :: 0 <= i < j < |FirstByKey(s, key)| ==>
              KeyOccursBefore(s, key, key(FirstByKey(s, key)[i]), key(FirstByKey(s, key)[j]))
    decreases |s|
  {
    if s == [] {
      assert |FirstByKey(s, key)| == 0;
    } else {
      var init, x := s[..|s| - 1], s[|s| - 1];
      var kept := FirstByKey(init, key);
      var r := FirstByKey(s, key);
      FirstByKeyOrder(init, key);
      FirstByKeyStep(s, key);
      forall i, j | 0 <= i < j < |r|
        ensures KeyOccursBefore(s, key, key(r[i]), key(r[j]))
      {
        assert r[i] == kept[i];
        if j < |kept| {
          assert r[j] == kept[j];
          assert KeyOccursBefore(init, key, key(kept[i]), key(kept[j]));
          var k :| 0 <= k < |init| && key(init[k]) == key(kept[i]) &&
                   forall m :: 0 <= m <= k ==> key(init[m]) != key(kept[j]);
          assert s[k] == init[k];
          assert forall m :: 0 <= m <= k ==> s[m] == init[m];
        } else {
          assert !HasKey(kept, key, key(x)) && r[j] == x;
          FirstByKeyKeys(init, key, key(x));
          assert kept[i] in init;
          var k :| 0 <= k < |init| && init[k] == kept[i];
          assert s[k] == init[k];
          assert forall m :: 0 <= m <= k ==> s[m] == init[m];
        }
      }
    }
  }

  function Self<T>(x: T): T { x }

  /** `[...new Set(s)]`: each value once, in order of first occurrence. */
  function Unique<T(!new, ==)>(s: seq<T>): seq<T> {
    FirstByKey(s, Self)
  }

  lemma UniqueSpec<T(!new)>(s: seq<T>)
    ensures forall x :: x in Unique(s) <==> x in s
    ensures forall i, j :: 0 <= i < j < |Unique(s)| ==> Unique(s)[i] != Unique(s)[j]
    ensures forall i, j :: 0 <= i < j < |Unique(s)| ==> KeyOccursBefore(s, Self, Unique(s)[i], Unique(s)[j])
    ensures IsSubsequence(Unique(s), s)
  {
    FirstByKeyDistinct(s, Self);
    FirstByKeyOrder(s, Self);
    FirstByKeyIsSubsequence(s, Self);
    forall x | x in s
      ensures x in Unique(s)
    {
      var i :| 0 <= i < |s| && s[i] == x;
      assert Self(s[i]) == x;
      FirstByKeyKeys(s, Self, x);
      var j :| 0 <= j < |Unique(s)| && Self(Unique(s)[j]) == x;
    }
  }
}
