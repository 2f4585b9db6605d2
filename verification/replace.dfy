/** Deleting a substring: Python's `s.replace(pat, "")`, which scans `s` from
    the left, removes the leftmost occurrence of `pat`, and resumes the scan
    right after it. */
module Replace {
  import opened Text

  /** `pat` occurs in `s` starting at position `i`. */
  predicate MatchAt(s: string, pat: string, i: nat) {
    i + |pat| <= |s| && s[i..i + |pat|] == pat
  }

  /** No occurrence of `pat` anywhere in `s`. */
  predicate Free(s: string, pat: string) {
    forall j :: 0 <= j <= |s| ==> !MatchAt(s, pat, j)
  }

  /** Python's `s.find(pat, from)` for a non-empty `pat`: the position of
      the leftmost occurrence that starts at `from` or later, or `None` when
      there is none. */
  function Find(s: string, pat: string, from: nat): (r: Option<nat>)
    requires pat != []
    ensures r.Some? ==> from <= r.value && MatchAt(s, pat, r.value)
    ensures r.Some? ==> forall j :: from <= j < r.value ==> !MatchAt(s, pat, j)
    ensures r.None? ==> forall j :: from <= j <= |s| ==> !MatchAt(s, pat, j)
    decreases |s| - from
  {
    if from + |pat| > |s| then None
    else if MatchAt(s, pat, from) then Some(from)
    else Find(s, pat, from + 1)
  }

  /** The text from `from` on with every occurrence removed that the
      left-to-right scan finds, resuming right after each one. */
  function DeleteFrom(s: string, pat: string, from: nat): (r: string)
    requires pat != []
    requires from <= |s|
    ensures |r| <= |s| - from
    decreases |s| - from
  {
    match Find(s, pat, from)
    case None => s[from..]
    case Some(i) => s[from..i] + DeleteFrom(s, pat, i + |pat|)
  }

  /** Without an occurrence from `from` on, the scan deletes nothing. */
  lemma DeleteFromFree(s: string, pat: string, from: nat)
    requires pat != []
    requires from <= |s|
    ensures (forall j :: from <= j <= |s| ==> !MatchAt(s, pat, j)) ==> DeleteFrom(s, pat, from) == s[from..]
  {
    if forall j :: from <= j <= |s| ==> !MatchAt(s, pat, j) {
      assert Find(s, pat, from).None?;
    }
  }

  /** `s.replace(pat, "")` for a non-empty `pat`. */
  function DeleteAll(s: string, pat: string): (r: string)
    requires pat != []
    ensures |r| <= |s|
    ensures Free(s, pat) ==> r == s
  {
    DeleteFromFree(s, pat, 0);
    assert s[0..] == s;
    DeleteFrom(s, pat, 0)
  }

  /** The pieces of `s[from..]` between the occurrences that the same scan
      finds. */
  function SplitFrom(s: string, pat: string, from: nat): (pieces: seq<string>)
    requires pat != []
    requires from <= |s|
    ensures |pieces| >= 1
    decreases |s| - from
  {
    match Find(s, pat, from)
    case None => [s[from..]]
    case Some(i) => [s[from..i]] + SplitFrom(s, pat, i + |pat|)
  }

  /** A stretch of `s` in which no occurrence starts holds no occurrence. */
  lemma FreeSlice(s: string, pat: string, from: nat, to: nat)
    requires pat != []
    requires from <= to <= |s|
    requires forall j :: from <= j < to ==> !MatchAt(s, pat, j)
    ensures Free(s[from..to], pat)
  {
    forall j | 0 <= j <= |s[from..to]| && MatchAt(s[from..to], pat, j) ensures false {
      SliceOfSlice(s, from, s[from..to], j, j + |pat|);
      assert MatchAt(s, pat, from + j);
    }
  }

  /** No piece of the split contains the pattern: the scan stops at the
      leftmost occurrence, so the text before it has none. */
  lemma {:induction false} SplitFromFree(s: string, pat: string, from: nat)
    requires pat != []
    requires from <= |s|
    ensures forall k :: 0 <= k < |SplitFrom(s, pat, from)| ==> Free(SplitFrom(s, pat, from)[k], pat)
    decreases |s| - from
  {
    match Find(s, pat, from)
    case None =>
      FreeSlice(s, pat, from, |s|);
      assert s[from..|s|] == s[from..];
    case Some(i) =>
      FreeSlice(s, pat, from, i);
      var next := i + |pat|;
      SplitFromFree(s, pat, next);
      var rest := SplitFrom(s, pat, next);
      assert SplitFrom(s, pat, from) == [s[from..i]] + rest;
  }

  /** Python's `s.split(pat)` for a non-empty `pat`. */
  function SplitOn(s: string, pat: string): (pieces: seq<string>)
    requires pat != []
    ensures |pieces| >= 1
    ensures forall k :: 0 <= k < |pieces| ==> Free(pieces[k], pat)
  {
    SplitFromFree(s, pat, 0);
    SplitFrom(s, pat, 0)
  }

  /** Python's `sep.join(pieces)`. */
  function JoinWith(pieces: seq<string>, sep: string): string
    requires |pieces| >= 1
  {
    if |pieces| == 1 then pieces[0] else pieces[0] + sep + JoinWith(pieces[1..], sep)
  }

  lemma {:induction false} SplitFromJoins(s: string, pat: string, from: nat)
    requires pat != []
    requires from <= |s|
    ensures JoinWith(SplitFrom(s, pat, from), pat) == s[from..]
    decreases |s| - from
  {
    match Find(s, pat, from)
    case None =>
    case Some(i) =>
      var next := i + |pat|;
      var rest := SplitFrom(s, pat, next);
      SplitFromJoins(s, pat, next);
      var pieces := [s[from..i]] + rest;
      assert SplitFrom(s, pat, from) == pieces;
      assert pieces[0] == s[from..i] && pieces[1..] == rest;
      assert s[from..] == s[from..i] + pat + s[next..];
  }

  /** `pat.join(s.split(pat)) == s`: splitting loses nothing. */
  lemma SplitJoinRoundTrip(s: string, pat: string)
    requires pat != []
    ensures JoinWith(SplitOn(s, pat), pat) == s
  {
    SplitFromJoins(s, pat, 0);
  }

  /** One step of the scan: the text before the occurrence is kept, and
      the scan resumes after it. */
  lemma DeleteStep(s: string, pat: string, from: nat, i: nat, next: nat)
    requires pat != []
    requires from <= |s|
    requires Find(s, pat, from) == Some(i) && next == i + |pat|
    ensures next <= |s|
    ensures DeleteFrom(s, pat, from) == s[from..i] + DeleteFrom(s, pat, next)
  {
  }

  /** The same step on the pieces. */
  lemma SplitStep(s: string, pat: string, from: nat, i: nat, next: nat)
    requires pat != []
    requires from <= |s|
    requires Find(s, pat, from) == Some(i) && next == i + |pat|
    ensures next <= |s|
    ensures Concat(SplitFrom(s, pat, from)) == s[from..i] + Concat(SplitFrom(s, pat, next))
  {
    var rest := SplitFrom(s, pat, next);
    assert SplitFrom(s, pat, from) == [s[from..i]] + rest;
    ConcatCons(s[from..i], rest);
  }

  lemma {:induction false} DeleteFromKeepsPieces(s: string, pat: string, from: nat)
    requires pat != []
    requires from <= |s|
    ensures DeleteFrom(s, pat, from) == Concat(SplitFrom(s, pat, from))
    decreases |s| - from
  {
    match Find(s, pat, from)
    case None =>
      ConcatSingle(s[from..]);
    case Some(i) =>
      var next := i + |pat|;
      DeleteStep(s, pat, from, i, next);
      SplitStep(s, pat, from, i, next);
      DeleteFromKeepsPieces(s, pat, next);
  }

  /** `s.replace(pat, "") == "".join(s.split(pat))`: deletion keeps exactly
      the pieces between the occurrences, in order. */
  lemma DeleteAllKeepsPieces(s: string, pat: string)
    requires pat != []
    ensures DeleteAll(s, pat) == Concat(SplitOn(s, pat))
  {
    DeleteFromKeepsPieces(s, pat, 0);
  }

  /** Deleting is not idempotent: removing an occurrence can join its
      neighbours into a new one. */
  lemma DeletionCanCreateMatch()
    ensures DeleteAll("papart_rt_", "part_") == "part_"
    ensures DeleteAll(DeleteAll("papart_rt_", "part_"), "part_") == []
  {
    var s := "papart_rt_";
    assert s[0..5][2] != "part_"[2];
    assert s[1..6][0] != "part_"[0];
    assert s[2..7] == "part_";
    assert Find(s, "part_", 0) == Some(2);
    assert Find(s, "part_", 7) == None;
    assert DeleteAll(s, "part_") == "pa" + "rt_";
    assert MatchAt("part_", "part_", 0);
    assert Find("part_", "part_", 0) == Some(0);
  }
}
