/** Rendering the statistics: Python's `str(n)` and `f"{n:,}"` for a
    non-negative `n`, the latter with its commas turned into spaces. */
module NumberFormat {
  import opened Text

  function DigitChar(d: nat): (c: char)
    requires d < 10
    ensures IsDigit(c)
  {
    ('0' as int + d) as char
  }

  function DigitValue(c: char): (d: nat)
    requires IsDigit(c)
    ensures d < 10
  {
    c as int - '0' as int
  }

  /** The number a string of decimal digits denotes. */
  function Value(r: string): nat
    requires AllDigits(r)
    decreases |r|
  {
    if r == [] then 0 else 10 * Value(r[..|r| - 1]) + DigitValue(r[|r| - 1])
  }

  /** A digit string with no superfluous leading zero. */
  predicate Canonical(r: string) {
    r != [] && AllDigits(r) && (|r| > 1 ==> r[0] != '0')
  }

  /** `str(n)`: the canonical decimal numeral of `n`. */
  function Decimal(n: nat): (r: string)
    ensures Canonical(r)
    ensures Value(r) == n
    decreases n
  {
    if n < 10 then [DigitChar(n)]
    else
      var front := Decimal(n / 10);
      var r := front + [DigitChar(n % 10)];
      assert r[..|r| - 1] == front;
      r
  }

  lemma {:induction false} CanonicalValuePositive(r: string)
    requires Canonical(r) && r[0] != '0'
    ensures Value(r) > 0
    decreases |r|
  {
    if |r| > 1 {
      CanonicalValuePositive(r[..|r| - 1]);
    }
  }

  /** Every canonical numeral is the one `str` produces for its value, so
      `Decimal` and `Value` are inverse to each other. */
  lemma {:induction false} DecimalOfValue(r: string)
    requires Canonical(r)
    ensures Decimal(Value(r)) == r
    decreases |r|
  {
    if |r| > 1 {
      var front, last := r[..|r| - 1], r[|r| - 1];
      var v, q, d := Value(r), Value(front), DigitValue(last);
      assert v == 10 * q + d;
      CanonicalValuePositive(front);
      LastDigit(v, q, d);
      DecimalOfValue(front);
      assert Decimal(v) == Decimal(q) + [DigitChar(d)];
      assert front + [last] == r;
    }
  }

  /** The last decimal digit of `10 * q + d` is `d`, and the rest is `q`. */
  lemma LastDigit(v: nat, q: nat, d: nat)
    requires d < 10 && v == 10 * q + d
    ensures v / 10 == q && v % 10 == d
  {
  }

  /** Every `sep` that Python's `,` grouping puts into a numeral is followed
      by exactly three digits up to the next separator or the end, and the
      leading group has one to three digits. */
  predicate GroupedBy(r: string, sep: char) {
    && |r| % 4 != 0
    && forall k :: 0 <= k < |r| ==> if (|r| - k) % 4 == 0 then r[k] == sep else IsDigit(r[k])
  }

  /** `s` with every `c` deleted. */
  function Without(s: string, c: char): string
    decreases |s|
  {
    if s == [] then [] else (if s[0] == c then [] else [s[0]]) + Without(s[1..], c)
  }

  lemma {:induction false} WithoutAppend(a: string, b: string, c: char)
    ensures Without(a + b, c) == Without(a, c) + Without(b, c)
    decreases |a|
  {
    if a == [] {
      assert a + b == b;
    } else {
      assert (a + b)[1..] == a[1..] + b;
      WithoutAppend(a[1..], b, c);
    }
  }

  lemma {:induction false} WithoutAbsent(s: string, c: char)
    requires forall k :: 0 <= k < |s| ==> s[k] != c
    ensures Without(s, c) == s
    decreases |s|
  {
    if s != [] {
      WithoutAbsent(s[1..], c);
    }
  }

  /** Appending a separator and three digits to a grouped numeral keeps it
      grouped. */
  lemma GroupedStep(front: string, sep: char, back: string)
    requires GroupedBy(front, sep)
    requires |back| == 3 && AllDigits(back)
    ensures GroupedBy(front + [sep] + back, sep)
  {
    var r := front + [sep] + back;
    forall k | 0 <= k < |r|
      ensures if (|r| - k) % 4 == 0 then r[k] == sep else IsDigit(r[k])
    {
      if k < |front| {
        assert |r| - k == (|front| - k) + 4;
        assert r[k] == front[k];
      } else if k > |front| {
        assert r[k] == back[k - |front| - 1];
      }
    }
  }

  lemma WithoutStep(front: string, sep: char, back: string)
    requires forall k :: 0 <= k < |back| ==> back[k] != sep
    ensures Without(front + [sep] + back, sep) == Without(front, sep) + back
  {
    calc {
      Without(front + [sep] + back, sep);
    == { WithoutAppend(front + [sep], back, sep); }
      Without(front + [sep], sep) + Without(back, sep);
    == { WithoutAbsent(back, sep); }
      Without(front + [sep], sep) + back;
    == { WithoutAppend(front, [sep], sep); WithoutSeparator(sep); }
      Without(front, sep) + back;
    }
  }

  lemma WithoutSeparator(sep: char)
    ensures Without([sep], sep) == []
  {
    assert [sep][1..] == [];
  }

  /** The `,` option of Python's format mini-language (PEP 378) applied to a
      numeral: `sep` before every third digit counted from the right. */
  function GroupDigits(d: string, sep: char): (r: string)
    requires d != [] && AllDigits(d)
    requires !IsDigit(sep)
    ensures GroupedBy(r, sep)
    ensures Without(r, sep) == d
    decreases |d|
  {
    if |d| <= 3 then
      WithoutAbsent(d, sep);
      d
    else
      var front := GroupDigits(d[..|d| - 3], sep);
      GroupDigitsStep(d, sep, front);
      front + [sep] + d[|d| - 3..]
  }

  /** The last three digits, behind a separator, extend a grouping of the
      digits before them to a grouping of all of `d`. */
  lemma GroupDigitsStep(d: string, sep: char, front: string)
    requires |d| > 3 && AllDigits(d) && !IsDigit(sep)
    requires GroupedBy(front, sep) && Without(front, sep) == d[..|d| - 3]
    ensures GroupedBy(front + [sep] + d[|d| - 3..], sep)
    ensures Without(front + [sep] + d[|d| - 3..], sep) == d
  {
    var back := d[|d| - 3..];
    GroupedStep(front, sep, back);
    WithoutStep(front, sep, back);
    assert d[..|d| - 3] + back == d;
  }

  /** Python's `s.replace(old, new)` for single characters. */
  function ReplaceChar(s: string, from: char, to: char): (r: string)
    ensures |r| == |s|
    ensures forall k :: 0 <= k < |s| ==> r[k] == if s[k] == from then to else s[k]
    decreases |s|
  {
    if s == [] then [] else [if s[0] == from then to else s[0]] + ReplaceChar(s[1..], from, to)
  }

  /** Renaming the separator keeps what remains without it. */
  lemma {:induction false} WithoutRenamed(s: string, from: char, to: char)
    requires forall k :: 0 <= k < |s| ==> s[k] != to
    ensures Without(ReplaceChar(s, from, to), to) == Without(s, from)
    decreases |s|
  {
    if s != [] {
      WithoutRenamed(s[1..], from, to);
    }
  }

  /** A grouped numeral holds no character other than digits and the
      separator. */
  lemma GroupedChars(r: string, sep: char, c: char)
    requires GroupedBy(r, sep)
    requires c != sep && !IsDigit(c)
    ensures forall k :: 0 <= k < |r| ==> r[k] != c
  {
    forall k | 0 <= k < |r|
      ensures r[k] != c
    {
      assert if (|r| - k) % 4 == 0 then r[k] == sep else IsDigit(r[k]);
    }
  }

  /** Renaming the separator of a grouped numeral keeps it grouped. */
  lemma GroupedRenamed(r: string, from: char, to: char)
    requires GroupedBy(r, from) && !IsDigit(from) && !IsDigit(to)
    ensures GroupedBy(ReplaceChar(r, from, to), to)
  {
    var q := ReplaceChar(r, from, to);
    forall k | 0 <= k < |q|
      ensures if (|q| - k) % 4 == 0 then q[k] == to else IsDigit(q[k])
    {
      assert if (|r| - k) % 4 == 0 then r[k] == from else IsDigit(r[k]);
    }
  }

  /** `f"{n:,}".replace(',', ' ')`: the numeral of `n` in groups of three
      separated by single spaces, with a leading group of one to three
      digits; removing the spaces gives back `str(n)`. */
  function ThousandsSpaced(n: nat): (r: string)
    ensures GroupedBy(r, ' ')
    ensures Without(r, ' ') == Decimal(n)
    ensures Value(Without(r, ' ')) == n
  {
    var commas := GroupDigits(Decimal(n), ',');
    var r := ReplaceChar(commas, ',', ' ');
    assert GroupedBy(r, ' ') by {
      GroupedRenamed(commas, ',', ' ');
    }
    assert Without(r, ' ') == Decimal(n) by {
      GroupedChars(commas, ',', ' ');
      WithoutRenamed(commas, ',', ' ');
    }
    r
  }
}
