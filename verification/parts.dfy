/** The input of the assembler: the files `part_*.txt` of the input
    directory in name order, and the part number each one is shown under. */
module Parts {
  import opened Text
  import opened Replace

  /** One input file: its name without the `.txt` suffix and its text. */
  datatype Part = Part(stem: string, content: string)

  const PartTag: string := "part_"
  const Extension: string := ".txt"

  function FileName(p: Part): string {
    p.stem + Extension
  }

  /** Python's `<` on strings: lexicographic order of code points. */
  predicate Below(a: string, b: string)
    decreases |a|
  {
    if a == [] then b != []
    else b != [] && (a[0] < b[0] || (a[0] == b[0] && Below(a[1..], b[1..])))
  }

  /** What `sorted(polish_path.glob("part_*.txt"))` delivers: names of the
      form `part_*.txt`, distinct and in ascending order. */
  predicate GlobbedAndSorted(parts: seq<Part>) {
    && (forall i :: 0 <= i < |parts| ==> PartTag <= parts[i].stem)
    && (forall i, j :: 0 <= i < j < |parts| ==> Below(FileName(parts[i]), FileName(parts[j])))
  }

  /** `txt_file.stem.replace('part_', '')`: the stem with every occurrence
      of the tag deleted. */
  function PartNumber(stem: string): string {
    DeleteAll(stem, PartTag)
  }

  lemma {:induction false} BelowIrreflexive(a: string)
    ensures !Below(a, a)
    decreases |a|
  {
    if a != [] {
      BelowIrreflexive(a[1..]);
    }
  }

  /** A common prefix does not change the order. */
  lemma {:induction false} BelowAfterPrefix(p: string, a: string, b: string)
    requires Below(a, b)
    ensures Below(p + a, p + b)
    decreases |p|
  {
    if p == [] {
      assert p + a == a && p + b == b;
    } else {
      BelowAfterPrefix(p[1..], a, b);
      assert (p + a)[1..] == p[1..] + a;
      assert (p + b)[1..] == p[1..] + b;
    }
  }

  /** A stem of the form `part_<digits>` yields its digits as the part
      number. */
  lemma PartNumberOfNumberedStem(digits: string)
    requires AllDigits(digits)
    ensures PartNumber(PartTag + digits) == digits
  {
    var s := PartTag + digits;
    assert MatchAt(s, PartTag, 0) by {
      assert s[0..|PartTag|] == PartTag;
    }
    assert Find(s, PartTag, 0) == Some(0);
    forall j | |PartTag| <= j <= |s|
      ensures !MatchAt(s, PartTag, j)
    {
      if j + |PartTag| <= |s| {
        assert s[j..j + |PartTag|][0] == digits[j - |PartTag|];
      }
    }
    assert DeleteFrom(s, PartTag, |PartTag|) == s[|PartTag|..];
    assert s[|PartTag|..] == digits;
  }

  /** Every occurrence of the tag goes, not only the leading one: the part
      number is what is left between the occurrences the scan finds, and
      those pieces joined with the tag give the stem back. */
  lemma PartNumberDeletesEveryTag(stem: string)
    ensures PartNumber(stem) == Concat(SplitOn(stem, PartTag))
    ensures JoinWith(SplitOn(stem, PartTag), PartTag) == stem
  {
    DeleteAllKeepsPieces(stem, PartTag);
    SplitJoinRoundTrip(stem, PartTag);
  }

  /** An instance: a tag in the middle of the stem goes as well. */
  lemma PartNumberInnerTag()
    ensures PartNumber("part_1part_2") == "12"
  {
    var s := "part_1part_2";
    assert s[0..5] == PartTag;
    assert Find(s, PartTag, 0) == Some(0);
    assert s[5..10][0] != 'p' && s[6..11] == PartTag;
    assert Find(s, PartTag, 5) == Some(6);
    assert Find(s, PartTag, 11) == None;
  }

  /** With stems `part_<digits>`, distinct files give distinct part
      numbers. */
  lemma DistinctNumbers(parts: seq<Part>, i: nat, j: nat)
    requires GlobbedAndSorted(parts)
    requires forall k :: 0 <= k < |parts| ==> AllDigits(parts[k].stem[|PartTag|..])
    requires i < j < |parts|
    ensures PartNumber(parts[i].stem) != PartNumber(parts[j].stem)
  {
    var si, sj := parts[i].stem, parts[j].stem;
    assert si == PartTag + si[|PartTag|..];
    assert sj == PartTag + sj[|PartTag|..];
    PartNumberOfNumberedStem(si[|PartTag|..]);
    PartNumberOfNumberedStem(sj[|PartTag|..]);
    if si == sj {
      BelowIrreflexive(FileName(parts[i]));
    }
  }

  /** `part_part_1` loses both tags. */
  lemma DoubleTagNumber()
    ensures PartNumber("part_part_1") == "1"
  {
    var s := "part_part_1";
    assert s[0..5] == PartTag;
    assert Find(s, PartTag, 0) == Some(0);
    assert s[5..10] == PartTag;
    assert Find(s, PartTag, 5) == Some(5);
    assert Find(s, PartTag, 10) == None;
  }

  /** `part_1.txt` sorts before `part_part_1.txt`. */
  lemma CollidingNamesSorted()
    ensures GlobbedAndSorted([Part(PartTag + "1", ""), Part(PartTag + "part_1", "")])
  {
    assert Below("1.txt", "part_1.txt");
    BelowAfterPrefix(PartTag, "1.txt", "part_1.txt");
    assert PartTag + "1" + Extension == PartTag + "1.txt";
    assert PartTag + "part_1" + Extension == PartTag + "part_1.txt";
  }

  /** Without numbered stems, two files can share a part number:
      `part_1.txt` and `part_part_1.txt` are both shown as part `1`. */
  lemma NumbersMayCollide()
    ensures GlobbedAndSorted([Part("part_1", ""), Part("part_part_1", "")])
    ensures PartNumber("part_1") == PartNumber("part_part_1") == "1"
  {
    CollidingNamesSorted();
    assert PartTag + "1" == "part_1";
    assert PartTag + "part_1" == "part_part_1";
    PartNumberOfNumberedStem("1");
    DoubleTagNumber();
  }
}
