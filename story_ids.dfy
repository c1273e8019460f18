/**
 * `extractStoryIds`: the Clubhouse story ids in a piece of text, found by the
 * global regular expression `(?<=ch)\d{1,7}` and then deduplicated through a
 * `Set`. The scan below is that one expression, not regular expressions in
 * general: the engine tries each position in turn; at a position right after
 * the two characters "ch" it takes the longest run of ASCII digits, at most
 * seven, and resumes after it; anywhere else it moves on by one character.
 */
module StoryIds {
  import opened Wrappers
  import opened Sequences

  /** The upper bound of the quantifier `{1,7}`. */
  const MaxIdDigits: nat := 7

  /** `\d` without the `u` flag: the ASCII digits only. */
  predicate IsAsciiDigit(c: char) {
    '0' <= c <= '9'
  }

  /** What the expression can return: one to seven ASCII digits. */
  predicate IsStoryId(id: string) {
    1 <= |id| <= MaxIdDigits && forall j :: 0 <= j < |id| ==> IsAsciiDigit(id[j])
  }

  /** The lookbehind `(?<=ch)` succeeds at position `i`. */
  predicate FollowsCh(s: string, i: int) {
    2 <= i <= |s| && s[i - 2] == 'c' && s[i - 1] == 'h'
  }

  /** `id` stands in `s` right after an occurrence of "ch". */
  ghost predicate OccursAfterCh(s: string, id: string) {
    exists i :: FollowsCh(s, i) && i + |id| <= |s| && s[i..i + |id|] == id
  }

  /** `id` is the whole greedy match of `\d{1,7}` at a position `j` right after "ch". */
  ghost predicate IsTaggedRunAt(s: string, j: int, id: string) {
    0 <= j < |s| && FollowsCh(s, j) && IsAsciiDigit(s[j]) && id == s[j..j + DigitRun(s, j)]
  }

  /** Extends a run of `n` digits at `i` greedily, up to `MaxIdDigits`. */
  function DigitRunFrom(s: string, i: nat, n: nat): (m: nat)
    requires i + n <= |s| && n <= MaxIdDigits
    requires forall j :: i <= j < i + n ==> IsAsciiDigit(s[j])
    ensures n <= m <= MaxIdDigits && i + m <= |s|
    ensures forall j :: i <= j < i + m ==> IsAsciiDigit(s[j])
    ensures m < MaxIdDigits && i + m < |s| ==> !IsAsciiDigit(s[i + m])
    decreases MaxIdDigits - n
  {
    if n == MaxIdDigits || i + n == |s| || !IsAsciiDigit(s[i + n]) then n
    else DigitRunFrom(s, i, n + 1)
  }

  /** The length `\d{1,7}` matches at `i` (0 when it does not match there). */
  function DigitRun(s: string, i: nat): (n: nat)
    requires i <= |s|
    ensures n <= MaxIdDigits && i + n <= |s|
    ensures forall j :: i <= j < i + n ==> IsAsciiDigit(s[j])
    ensures n < MaxIdDigits && i + n < |s| ==> !IsAsciiDigit(s[i + n])
  {
    DigitRunFrom(s, i, 0)
  }

  /** The successive matches of the global expression, searching from `i`. */
  function MatchesFrom(s: string, i: nat): (ms: seq<string>)
    requires i <= |s|
    ensures forall m :: m in ms ==> IsStoryId(m) && OccursAfterCh(s, m)
    decreases |s| - i
  {
    if i == |s| then []
    else if FollowsCh(s, i) && DigitRun(s, i) > 0 then
      var n := DigitRun(s, i);
      assert s[i..i + n][..] == s[i..i + |s[i..i + n]|];
      [s[i..i + n]] + MatchesFrom(s, i + n)
    else MatchesFrom(s, i + 1)
  }

  /** `content.match(regex)`: the matches, or null when there are none. */
  function Match(content: string): (r: Option<seq<string>>)
    ensures r.None? <==> MatchesFrom(content, 0) == []
    ensures r.Some? ==> r.value == MatchesFrom(content, 0) && r.value != []
  {
    var all := MatchesFrom(content, 0);
    if all == [] then None else Some(all)
  }

  /** `extractStoryIds`: `[...new Set(content.match(regex))]`, where a null match gives an empty set. */
  function ExtractStoryIds(content: string): (ids: seq<string>)
    ensures forall id :: id in ids ==> IsStoryId(id) && OccursAfterCh(content, id)
    ensures forall i, j :: 0 <= i < j < |ids| ==> ids[i] != ids[j]
    ensures Match(content).None? ==> ids == []
  {
    var all := Match(content).GetOr([]);
    UniqueSpec(all);
    Unique(all)
  }

  /** The ids are the matches, each once, in order of first occurrence. */
  lemma StoryIdsAreFirstOccurrences(content: string)
    ensures var all := MatchesFrom(content, 0);
            var ids := ExtractStoryIds(content);
            (forall m :: m in ids <==> m in all) &&
            IsSubsequence(ids, all) &&
            (forall i, j :: 0 <= i < j < |ids| ==> KeyOccursBefore(all, Self, ids[i], ids[j]))
  {
    UniqueSpec(MatchesFrom(content, 0));
  }

  /** Each match is the whole greedy digit run at some "ch" position the scan passes. */
  lemma {:induction false} MatchesAreTaggedRuns(s: string, i: nat)
    requires i <= |s|
    ensures forall m :: m in MatchesFrom(s, i) ==> exists j :: i <= j && IsTaggedRunAt(s, j, m)
    decreases |s| - i
  {
    if i < |s| {
      if FollowsCh(s, i) && DigitRun(s, i) > 0 {
        var n := DigitRun(s, i);
        MatchesAreTaggedRuns(s, i + n);
        assert IsTaggedRunAt(s, i, s[i..i + n]);
      } else {
        MatchesAreTaggedRuns(s, i + 1);
      }
    }
  }

  /**
   * No match can swallow a position that follows "ch" ('h' is no digit), so
   * a scan that starts at or before such a position reaches it.
   */
  lemma {:induction false} ScanReaches(s: string, start: nat, i: nat)
    requires start <= i < |s| && FollowsCh(s, i) && IsAsciiDigit(s[i])
    ensures s[i..i + DigitRun(s, i)] in MatchesFrom(s, start)
    decreases i - start
  {
    if start < i {
      if FollowsCh(s, start) && DigitRun(s, start) > 0 {
        var n := DigitRun(s, start);
        assert !IsAsciiDigit(s[i - 1]);
        ScanReaches(s, start + n, i);
      } else {
        ScanReaches(s, start + 1, i);
      }
    }
  }

  /** Every digit run right after "ch" yields an id (its first seven digits). */
  lemma EveryTaggedRunIsFound(content: string, i: nat)
    requires i < |content| && FollowsCh(content, i) && IsAsciiDigit(content[i])
    ensures content[i..i + DigitRun(content, i)] in ExtractStoryIds(content)
  {
    ScanReaches(content, 0, i);
    StoryIdsAreFirstOccurrences(content);
  }

  /**
   * The ids are exactly the whole greedy digit runs at the positions right
   * after "ch": a shorter piece of such a run, as "12" in "ch123", is none.
   */
  lemma StoryIdsAreTaggedRuns(content: string)
    ensures forall id :: id in ExtractStoryIds(content) <==> exists j :: IsTaggedRunAt(content, j, id)
  {
    StoryIdsAreFirstOccurrences(content);
    MatchesAreTaggedRuns(content, 0);
    forall id | exists j :: IsTaggedRunAt(content, j, id)
      ensures id in ExtractStoryIds(content)
    {
      var j :| IsTaggedRunAt(content, j, id);
      EveryTaggedRunIsFound(content, j);
    }
  }

  /** No word boundary is needed before "ch": a branch name yields its number. */
  lemma BranchNameExample()
    ensures ExtractStoryIds("branch42") == ["42"]
  {
    var s := "branch42";
    assert DigitRun(s, 6) == 2 by {
      assert IsAsciiDigit(s[6]) && IsAsciiDigit(s[7]);
    }
    assert MatchesFrom(s, 6) == ["42"] by {
      assert s[6..8] == "42";
    }
    assert Unique(["42"]) == ["42"];
  }

  /** A run of eight digits gives its first seven; the eighth follows no "ch". */
  lemma SevenDigitCapExample()
    ensures ExtractStoryIds("ch12345678") == ["1234567"]
  {
    var s := "ch12345678";
    assert forall j :: 2 <= j < 9 ==> IsAsciiDigit(s[j]);
    assert DigitRun(s, 2) == 7;
    assert MatchesFrom(s, 9) == [] by {
      assert !FollowsCh(s, 9);
      assert MatchesFrom(s, 10) == [];
    }
    assert s[2..9] == "1234567";
    assert MatchesFrom(s, 2) == ["1234567"] + MatchesFrom(s, 9);
    assert !FollowsCh(s, 0) && !FollowsCh(s, 1);
    assert MatchesFrom(s, 0) == MatchesFrom(s, 1) == MatchesFrom(s, 2);
    assert Unique(["1234567"]) == ["1234567"];
  }
}
