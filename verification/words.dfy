/** Word counting: Python's `len(content.split())`. */
module Words {
  import opened Text

  /** Python's `str.split()` without a separator: the maximal runs of
      non-whitespace characters, in order. */
  function Split(s: string): (words: seq<string>)
    ensures forall i :: 0 <= i < |words| ==> words[i] != [] && NoSpace(words[i])
    decreases |s|
  {
    var t := s[LeadingSpaces(s)..];
    if t == [] then []
    else
      var n := LeadingWord(t);
      [t[..n]] + Split(t[n..])
  }

  /** Reference count of words: the number of positions holding a
      non-whitespace character that begins the string or follows a whitespace
      character. `afterSpace` tells whether the position before `s` counts as
      whitespace (or as the start). */
  function RunStarts(s: string, afterSpace: bool): nat
    decreases |s|
  {
    if s == [] then 0
    else (if afterSpace && !IsSpace(s[0]) then 1 else 0) + RunStarts(s[1..], IsSpace(s[0]))
  }

  /** Leading whitespace starts no word. */
  lemma {:induction false} RunStartsSkipSpaces(s: string, n: nat)
    requires n <= |s|
    requires forall k :: 0 <= k < n ==> IsSpace(s[k])
    ensures RunStarts(s, true) == RunStarts(s[n..], true)
    decreases n
  {
    if n > 0 {
      assert s[1..][n - 1..] == s[n..];
      RunStartsSkipSpaces(s[1..], n - 1);
    }
  }

  /** Inside a word, further non-whitespace starts no word. */
  lemma {:induction false} RunStartsInsideWord(s: string, n: nat)
    requires n <= |s|
    requires forall k :: 0 <= k < n ==> !IsSpace(s[k])
    ensures RunStarts(s, false) == RunStarts(s[n..], false)
    decreases n
  {
    if n > 0 {
      assert s[1..][n - 1..] == s[n..];
      RunStartsInsideWord(s[1..], n - 1);
    }
  }

  /** Trailing whitespace starts no word. */
  lemma {:induction false} RunStartsIgnoresTrailingSpace(x: string, y: string, b: bool)
    requires AllSpace(y)
    ensures RunStarts(x + y, b) == RunStarts(x, b)
    decreases |x|
  {
    if x == [] {
      assert x + y == y;
      RunStartsSkipSpaces(y, |y|);
      if b {
        assert RunStarts(y, true) == RunStarts(y[|y|..], true);
      } else if y != [] {
        assert RunStarts(y, false) == RunStarts(y[1..], true);
        RunStartsSkipSpaces(y[1..], |y| - 1);
      }
    } else {
      assert (x + y)[1..] == x[1..] + y;
      RunStartsIgnoresTrailingSpace(x[1..], y, IsSpace(x[0]));
    }
  }

  /** A string without a word start is all whitespace, and conversely. */
  lemma {:induction false} NoRunStartsIffAllSpace(s: string)
    ensures RunStarts(s, true) == 0 <==> AllSpace(s)
    decreases |s|
  {
    if s != [] {
      NoRunStartsIffAllSpace(s[1..]);
      if IsSpace(s[0]) {
        if AllSpace(s[1..]) {
          assert forall k :: 1 <= k < |s| ==> s[k] == s[1..][k - 1];
        }
      }
    }
  }

  /** `Split` finds exactly one word per word start. */
  lemma {:induction false} SplitCountsRunStarts(s: string)
    ensures |Split(s)| == RunStarts(s, true)
    decreases |s|
  {
    var lead := LeadingSpaces(s);
    RunStartsSkipSpaces(s, lead);
    var t := s[lead..];
    if t != [] {
      var n := LeadingWord(t);
      var rest := t[n..];
      assert RunStarts(t, true) == 1 + RunStarts(t[1..], false);
      assert t[1..][n - 1..] == rest;
      RunStartsInsideWord(t[1..], n - 1);
      assert RunStarts(rest, false) == RunStarts(rest, true);
      SplitCountsRunStarts(rest);
    }
  }

  /** `len(content.split())`, computed in one left-to-right pass that counts
      the characters where a word begins. */
  method CountWords(s: string) returns (count: nat)
    ensures count == |Split(s)|
    ensures count == 0 <==> AllSpace(s)
  {
    count := 0;
    var inWord := false;
    var i := 0;
    while i < |s|
      invariant i <= |s|
      invariant count + RunStarts(s[i..], !inWord) == RunStarts(s, true)
    {
      assert s[i..][1..] == s[i + 1..];
      if IsSpace(s[i]) {
        inWord := false;
      } else {
        if !inWord {
          count := count + 1;
        }
        inWord := true;
      }
      i := i + 1;
    }
    SplitCountsRunStarts(s);
    NoRunStartsIffAllSpace(s);
  }
}
