/** The first pass of the assembler: the number of words over all parts. */
module Totals {
  import opened Text
  import opened Words
  import opened Parts

  /** Total number of words over all parts. */
  function SumWords(parts: seq<Part>): nat {
    if parts == [] then 0 else |Split(parts[0].content)| + SumWords(parts[1..])
  }

  lemma {:induction false} SumWordsAppend(a: seq<Part>, b: seq<Part>)
    ensures SumWords(a + b) == SumWords(a) + SumWords(b)
    decreases |a|
  {
    if a == [] {
      assert a + b == b;
    } else {
      assert (a + b)[1..] == a[1..] + b;
      SumWordsAppend(a[1..], b);
    }
  }

  /** Taking part `j` out of the list takes its words out of the total. */
  lemma SumWordsRemove(b: seq<Part>, j: nat)
    requires j < |b|
    ensures SumWords(b) == |Split(b[j].content)| + SumWords(b[..j] + b[j + 1..])
  {
    var rest := [b[j]] + b[j + 1..];
    assert b == b[..j] + rest;
    SumWordsAppend(b[..j], rest);
    assert rest[1..] == b[j + 1..];
    SumWordsAppend(b[..j], b[j + 1..]);
  }

  lemma MultisetRemove<T>(b: seq<T>, j: nat)
    requires j < |b|
    ensures multiset(b[..j] + b[j + 1..]) == multiset(b) - multiset{b[j]}
  {
    assert b == b[..j] + [b[j]] + b[j + 1..];
  }

  /** Taking the first element out of `a` and an equal one out of `b`
      leaves two permutations of each other. */
  lemma MultisetRemoveMatching<T>(a: seq<T>, b: seq<T>, j: nat)
    requires multiset(a) == multiset(b)
    requires a != [] && j < |b| && b[j] == a[0]
    ensures multiset(a[1..]) == multiset(b[..j] + b[j + 1..])
  {
    MultisetRemove(a, 0);
    MultisetRemove(b, j);
    assert a[..0] + a[1..] == a[1..];
  }

  /** The word total does not depend on the order in which the parts are
      counted. */
  lemma {:induction false} SumWordsReorder(a: seq<Part>, b: seq<Part>)
    requires multiset(a) == multiset(b)
    ensures SumWords(a) == SumWords(b)
    decreases |a|
  {
    if a == [] {
      assert |b| == |multiset(b)| == 0;
    } else {
      assert a[0] in multiset(b);
      var j :| 0 <= j < |b| && b[j] == a[0];
      SumWordsRemove(b, j);
      MultisetRemoveMatching(a, b, j);
      SumWordsReorder(a[1..], b[..j] + b[j + 1..]);
    }
  }

  /** The total is zero exactly when no part holds anything but
      whitespace. */
  lemma {:induction false} SumWordsZero(parts: seq<Part>)
    ensures SumWords(parts) == 0 <==> forall k :: 0 <= k < |parts| ==> AllSpace(parts[k].content)
    decreases |parts|
  {
    if parts != [] {
      SumWordsZero(parts[1..]);
      SplitCountsRunStarts(parts[0].content);
      NoRunStartsIffAllSpace(parts[0].content);
      assert forall k :: 1 <= k < |parts| ==> parts[k] == parts[1..][k - 1];
    }
  }

  /** The first pass over the files: add up `len(content.split())`. The
      total is zero exactly when no part holds anything but whitespace. */
  method CountTotalWords(parts: seq<Part>) returns (total: nat)
    ensures total == SumWords(parts)
    ensures total == 0 <==> forall k :: 0 <= k < |parts| ==> AllSpace(parts[k].content)
  {
    total := 0;
    var i := 0;
    while i < |parts|
      invariant i <= |parts|
      invariant total + SumWords(parts[i..]) == SumWords(parts)
    {
      assert parts[i..][1..] == parts[i + 1..];
      var n := CountWords(parts[i].content);
      total := total + n;
      i := i + 1;
    }
    assert parts[|parts|..] == [];
    SumWordsZero(parts);
  }
}
