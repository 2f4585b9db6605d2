/** Trimming: Python's `str.strip()` without arguments. */
module Trim {
  import opened Text
  import opened Words

  /** Length of the longest suffix of `s` made of whitespace. */
  function TrailingSpaces(s: string): (n: nat)
    ensures n <= |s|
    ensures forall k :: |s| - n <= k < |s| ==> IsSpace(s[k])
    ensures n < |s| ==> !IsSpace(s[|s| - 1 - n])
    decreases |s|
  {
    if s == [] || !IsSpace(s[|s| - 1]) then 0 else 1 + TrailingSpaces(s[..|s| - 1])
  }

  /** `s.strip()`: `s` without its leading and trailing whitespace. */
  function Strip(s: string): (r: string)
    ensures |r| <= |s|
    ensures r == [] <==> AllSpace(s)
    ensures r != [] ==> !IsSpace(r[0]) && !IsSpace(r[|r| - 1])
  {
    var lo := LeadingSpaces(s);
    if lo == |s| then [] else s[lo..|s| - TrailingSpaces(s)]
  }

  /** `Strip(s)` is the one infix of `s` whose margins are whitespace and
      whose ends are not: any such infix `s[lo..hi]` equals it. */
  lemma StripCharacterized(s: string, lo: nat, hi: nat)
    requires lo <= hi <= |s|
    requires forall k :: 0 <= k < lo ==> IsSpace(s[k])
    requires forall k :: hi <= k < |s| ==> IsSpace(s[k])
    requires lo < hi ==> !IsSpace(s[lo]) && !IsSpace(s[hi - 1])
    ensures Strip(s) == s[lo..hi]
  {
    if lo < hi {
      var l := LeadingSpaces(s);
      var t := TrailingSpaces(s);
      assert l == lo;
      assert |s| - t == hi;
    } else {
      assert AllSpace(s) by {
        forall k | 0 <= k < |s| ensures IsSpace(s[k]) {
          if k >= lo { assert k >= hi; }
        }
      }
    }
  }

  /** Stripping twice strips nothing more. */
  lemma StripIdempotent(s: string)
    ensures Strip(Strip(s)) == Strip(s)
  {
    var r := Strip(s);
    StripCharacterized(r, 0, |r|);
  }

  /** The words of the stripped text are as many as those of the raw text,
      so the per-part word count printed while rendering agrees with the one
      added to the total. */
  lemma {:induction false} StripKeepsWordCount(s: string)
    ensures |Split(Strip(s))| == |Split(s)|
  {
    SplitCountsRunStarts(s);
    SplitCountsRunStarts(Strip(s));
    StripKeepsRunStarts(s);
  }

  lemma StripKeepsRunStarts(s: string)
    ensures RunStarts(Strip(s), true) == RunStarts(s, true)
  {
    var lo := LeadingSpaces(s);
    RunStartsSkipSpaces(s, lo);
    if lo == |s| {
      assert s[lo..] == [] == Strip(s);
    } else {
      var hi := |s| - TrailingSpaces(s);
      var r, tail := s[lo..hi], s[hi..];
      assert Strip(s) == r;
      assert AllSpace(tail) by {
        forall k | 0 <= k < |tail| ensures IsSpace(tail[k]) {
          assert tail[k] == s[hi + k];
        }
      }
      SliceSplit(s, lo, hi);
      RunStartsIgnoresTrailingSpace(r, tail, true);
    }
  }

  /** The stripped text is empty exactly when the raw text has no word. */
  lemma {:induction false} StripEmptyIffNoWords(s: string)
    ensures Strip(s) == [] <==> |Split(s)| == 0
  {
    SplitCountsRunStarts(s);
    NoRunStartsIffAllSpace(s);
  }
}
