/** Character classes and sequence helpers shared by the document model.
    Strings are `seq<char>` whose characters are Unicode scalar values: the
    code points of a Python `str` other than lone surrogates. */
module Text {

  datatype Option<T> = None | Some(value: T)

  /** Python's `str.isspace()`: the characters that `str.split()` and
      `str.strip()` (both without arguments) treat as whitespace, namely the
      code points of bidirectional class WS, B or S or of category Zs. */
  predicate IsSpace(c: char) {
    || ('\t' <= c <= '\r')
    || ('\U{1C}' <= c <= ' ')
    || c == '\U{85}' || c == '\U{A0}' || c == '\U{1680}'
    || ('\U{2000}' <= c <= '\U{200A}')
    || c == '\U{2028}' || c == '\U{2029}' || c == '\U{202F}'
    || c == '\U{205F}' || c == '\U{3000}'
  }

  predicate IsDigit(c: char) {
    '0' <= c <= '9'
  }

  predicate AllSpace(s: string) {
    forall k :: 0 <= k < |s| ==> IsSpace(s[k])
  }

  predicate NoSpace(s: string) {
    forall k :: 0 <= k < |s| ==> !IsSpace(s[k])
  }

  predicate AllDigits(s: string) {
    forall k :: 0 <= k < |s| ==> IsDigit(s[k])
  }

  /** Length of the longest prefix of `s` made of whitespace. */
  function LeadingSpaces(s: string): (n: nat)
    ensures n <= |s|
    ensures forall k :: 0 <= k < n ==> IsSpace(s[k])
    ensures n < |s| ==> !IsSpace(s[n])
  {
    if s == [] || !IsSpace(s[0]) then 0 else 1 + LeadingSpaces(s[1..])
  }

  /** Length of the longest prefix of `s` made of non-whitespace. */
  function LeadingWord(s: string): (n: nat)
    ensures n <= |s|
    ensures forall k :: 0 <= k < n ==> !IsSpace(s[k])
    ensures n < |s| ==> IsSpace(s[n])
  {
    if s == [] || IsSpace(s[0]) then 0 else 1 + LeadingWord(s[1..])
  }

  /** The strings of `xs` glued together in order (Python's `"".join`). */
  function Concat(xs: seq<string>): string {
    if xs == [] then [] else xs[0] + Concat(xs[1..])
  }

  lemma {:induction false} ConcatAppend(xs: seq<string>, ys: seq<string>)
    ensures Concat(xs + ys) == Concat(xs) + Concat(ys)
    decreases |xs|
  {
    if xs == [] {
      assert xs + ys == ys;
    } else {
      assert (xs + ys)[1..] == xs[1..] + ys;
      ConcatAppend(xs[1..], ys);
    }
  }

  lemma ConcatSingle(x: string)
    ensures Concat([x]) == x
  {
    assert [x][1..] == [];
  }

  /** A string in front of the list comes first. */
  lemma ConcatCons(x: string, rest: seq<string>)
    ensures Concat([x] + rest) == x + Concat(rest)
  {
    var ys := [x] + rest;
    assert ys[0] == x && ys[1..] == rest;
  }

  /** `Concat(xs)` holds `xs[i]` right after the concatenation of the
      strings before it. */
  lemma {:induction false} ConcatSplitAt(xs: seq<string>, i: nat)
    requires i < |xs|
    ensures Concat(xs) == Concat(xs[..i]) + xs[i] + Concat(xs[i + 1..])
  {
    var tail := [xs[i]] + xs[i + 1..];
    assert xs == xs[..i] + tail;
    ConcatAppend(xs[..i], tail);
    assert tail[1..] == xs[i + 1..];
    assert Concat(tail) == xs[i] + Concat(xs[i + 1..]);
  }

  /** One more string on a prefix adds it at the end. */
  lemma ConcatPrefixStep(xs: seq<string>, k: nat)
    requires k < |xs|
    ensures Concat(xs[..k + 1]) == Concat(xs[..k]) + xs[k]
  {
    assert xs[..k + 1] == xs[..k] + [xs[k]];
    ConcatAppend(xs[..k], [xs[k]]);
    assert Concat([xs[k]]) == xs[k] + Concat([]);
  }

  /** Concatenating a prefix of `xs` never yields more than all of `xs`, and
      a longer prefix covers at least one more string. */
  lemma ConcatPrefixGrows(xs: seq<string>, i: nat, j: nat)
    requires i < j <= |xs|
    ensures |Concat(xs[..i])| + |xs[i]| <= |Concat(xs[..j])|
  {
    assert xs[..j] == xs[..i] + [xs[i]] + xs[i + 1..j];
    ConcatAppend(xs[..i] + [xs[i]], xs[i + 1..j]);
    ConcatAppend(xs[..i], [xs[i]]);
    assert Concat([xs[i]]) == xs[i] + Concat([]);
  }

  /** In `head + Concat(xs) + tail`, the string `xs[i]` stands right after
      `head` and the strings of `xs` before it. */
  lemma PieceAt(head: string, xs: seq<string>, tail: string, i: nat)
    requires i < |xs|
    ensures var off := |head| + |Concat(xs[..i])|;
      && off + |xs[i]| <= |head + Concat(xs) + tail|
      && (head + Concat(xs) + tail)[off..off + |xs[i]|] == xs[i]
  {
    ConcatSplitAt(xs, i);
    var before := head + Concat(xs[..i]);
    var after := Concat(xs[i + 1..]) + tail;
    assert head + Concat(xs) + tail == before + xs[i] + after;
    SliceMiddle(before, xs[i], after);
  }

  /** A slice of a piece found in `s` is the same slice of `s`, shifted. */
  lemma SliceOfSlice(s: string, off: nat, piece: string, lo: nat, hi: nat)
    requires off + |piece| <= |s| && s[off..off + |piece|] == piece
    requires lo <= hi <= |piece|
    ensures s[off + lo..off + hi] == piece[lo..hi]
  {
    forall k | 0 <= k < hi - lo
      ensures s[off + lo..off + hi][k] == piece[lo..hi][k]
    {
      assert s[off..off + |piece|][lo + k] == s[off + lo + k];
    }
  }

  /** In `front + x + back`: the tail of `front` from `lo`, then `x`, then
      the first character of `back`. */
  lemma AfterFront(front: string, x: string, back: string, lo: nat)
    requires back != [] && lo <= |front|
    ensures |front| + |x| < |front + x + back|
    ensures (front + x + back)[lo..|front|] == front[lo..]
    ensures (front + x + back)[|front|..|front| + |x|] == x
    ensures (front + x + back)[|front| + |x|] == back[0]
  {
    SliceMiddle(front, x, back);
    SliceMiddle(front[..lo], front[lo..], x + back);
    assert front[..lo] + front[lo..] + (x + back) == front + x + back;
  }

  /** A suffix of `s` is its slice up to `hi` followed by the rest. */
  lemma SliceSplit(s: string, lo: nat, hi: nat)
    requires lo <= hi <= |s|
    ensures s[lo..] == s[lo..hi] + s[hi..]
  {
  }

  /** Slicing out the middle of a three-part concatenation gives it back. */
  lemma SliceMiddle(x: string, y: string, z: string)
    ensures (x + y + z)[|x|..|x| + |y|] == y
  {
  }
}
