/** The document assembler of `combine_polish_to_html.py`: from the parts
    found in the input directory, in name order, to the text of the HTML
    page, with its two statistics, one table-of-contents link per part and
    one section per part. The fixed text of the page is a parameter here;
    the script's own text is in module `Script`. */
module Combine {
  import opened Text
  import opened Words
  import opened Trim
  import opened NumberFormat
  import opened Layout
  import opened Parts
  import opened Totals
  import opened Anchors

  /** What a run leaves behind: nothing when no part was found, otherwise
      the page written to the output file. */
  datatype Outcome = NothingWritten | Written(html: string)

  /** The markup written around each part, cut where the part number and
      the text go. */
  datatype Markup = Markup(
    linkOpen: string,       // a link, up to the number in its target
    linkLabel: string,      // from the target's number to the label's number
    linkClose: string,      // after the label's number
    sectionOpen: string,    // a section, up to the number in its `id`
    sectionHeader: string,  // from the `id`'s number to the heading's number
    sectionText: string,    // from the heading's number to the text
    sectionClose: string,   // after the text
    placeholder: string)    // shown for a part without words

  /** The link's quoted `href` reads `#<key><n>` and the section's quoted
      `id` reads `<key><n>`, each number followed by the quote that closes
      the attribute. */
  predicate Anchored(m: Markup, key: string) {
    && |m.linkOpen| >= |key| + 7 && HrefOpenAt(m.linkOpen, |m.linkOpen| - |key| - 7)
    && m.linkOpen[|m.linkOpen| - |key| - 1] == '#'
    && m.linkOpen[|m.linkOpen| - |key|..] == key
    && |m.sectionOpen| >= |key| + 4 && IdOpenAt(m.sectionOpen, |m.sectionOpen| - |key| - 4)
    && m.sectionOpen[|m.sectionOpen| - |key|..] == key
    && m.linkLabel != [] && m.linkLabel[0] == '"'
    && m.sectionHeader != [] && m.sectionHeader[0] == '"'
  }

  /** The table-of-contents entry of part `n`: a link to its section,
      labelled with `n`. */
  function TocLink(m: Markup, n: string): string {
    m.linkOpen + n + m.linkLabel + n + m.linkClose
  }

  /** The section of part `n`: its anchor, its heading and its body. */
  function SectionBlock(m: Markup, n: string, body: string): string {
    m.sectionOpen + n + m.sectionHeader + n + m.sectionText + body + m.sectionClose
  }

  /** What a section shows: the stripped text, inserted without escaping,
      or the placeholder when nothing is left of the text. */
  function SectionBody(m: Markup, content: string): string {
    var text := Strip(content);
    if text == [] then m.placeholder else text
  }

  /** A section shows the placeholder exactly for a text without words,
      and otherwise the stripped text, which starts and ends with a
      non-whitespace character. */
  lemma SectionBodyCases(m: Markup, content: string)
    ensures |Split(content)| == 0 ==> SectionBody(m, content) == m.placeholder
    ensures |Split(content)| > 0 ==> SectionBody(m, content) == Strip(content)
    ensures |Split(content)| > 0 ==> Strip(content) != []
    ensures |Split(content)| > 0 ==> !IsSpace(Strip(content)[0]) && !IsSpace(Strip(content)[|Strip(content)| - 1])
  {
    StripEmptyIffNoWords(content);
  }

  /** The table of contents, one link per part in input order. */
  function TocLinks(m: Markup, parts: seq<Part>): (links: seq<string>)
    ensures |links| == |parts|
  {
    if parts == [] then [] else [TocLink(m, PartNumber(parts[0].stem))] + TocLinks(m, parts[1..])
  }

  /** The sections, one per part in input order. */
  function Sections(m: Markup, parts: seq<Part>): (sections: seq<string>)
    ensures |sections| == |parts|
  {
    if parts == [] then []
    else [SectionBlock(m, PartNumber(parts[0].stem), SectionBody(m, parts[0].content))] + Sections(m, parts[1..])
  }

  /** The page of the given parts: the number of parts, the grouped word
      total, then one link and one section per part. */
  function Assemble(m: Markup, parts: seq<Part>): (page: Page)
    ensures Canonical(page.partsStat) && Value(page.partsStat) == |parts|
    ensures GroupedBy(page.wordsStat, ' ') && Without(page.wordsStat, ' ') == Decimal(SumWords(parts))
    ensures |page.links| == |parts| && |page.sections| == |parts|
  {
    Page(Decimal(|parts|), ThousandsSpaced(SumWords(parts)), TocLinks(m, parts), Sections(m, parts))
  }

  /** A run with fixed text `t` and markup `m`: no page at all for an empty
      directory, otherwise the assembled page rendered with `t`. */
  function CombineWith(t: Template, m: Markup, parts: seq<Part>): (out: Outcome)
    requires GlobbedAndSorted(parts)
    ensures out.NothingWritten? <==> parts == []
  {
    if |parts| == 0 then NothingWritten else Written(Render(t, Assemble(m, parts)))
  }

  /** Link `i` of the table of contents belongs to part `i`. */
  lemma {:induction false} LinkOfPart(m: Markup, parts: seq<Part>, i: nat)
    requires i < |parts|
    ensures TocLinks(m, parts)[i] == TocLink(m, PartNumber(parts[i].stem))
    decreases i
  {
    if i > 0 {
      LinkOfPart(m, parts[1..], i - 1);
    }
  }

  /** Section `i` belongs to part `i`. */
  lemma {:induction false} SectionOfPart(m: Markup, parts: seq<Part>, i: nat)
    requires i < |parts|
    ensures Sections(m, parts)[i]
      == SectionBlock(m, PartNumber(parts[i].stem), SectionBody(m, parts[i].content))
    decreases i
  {
    if i > 0 {
      SectionOfPart(m, parts[1..], i - 1);
    }
  }

  /** Links follow each other in input order, so do sections, and every
      link comes before every section. */
  lemma BlocksInOrder(t: Template, m: Markup, parts: seq<Part>, i: nat, j: nat)
    requires i < |parts| && j < |parts|
    ensures var page := Assemble(m, parts);
      && (i < j ==> LinkOffset(t, page, i) + |page.links[i]| <= LinkOffset(t, page, j))
      && (i < j ==> SectionOffset(t, page, i) + |page.sections[i]| <= SectionOffset(t, page, j))
      && LinkOffset(t, page, i) + |page.links[i]| <= SectionOffset(t, page, j)
  {
    RenderOrder(t, Assemble(m, parts), i, j);
  }

  /** The link of part `n` targets `#<key><n>`: right after its opening
      markup stand `n` and the closing quote, preceded by `href="#` and the
      key. */
  lemma LinkTarget(m: Markup, key: string, n: string)
    requires Anchored(m, key)
    ensures TargetAt(TocLink(m, n), |m.linkOpen|, key, n)
  {
    var back := m.linkLabel + n + m.linkClose;
    assert TocLink(m, n) == m.linkOpen + n + back;
    AfterFront(m.linkOpen, n, back, |m.linkOpen| - |key| - 7);
  }

  /** The section of part `n` carries `id="<key><n>"` right after its
      opening markup. */
  lemma SectionId(m: Markup, key: string, n: string, body: string)
    requires Anchored(m, key)
    ensures IdAt(SectionBlock(m, n, body), |m.sectionOpen|, key, n)
  {
    var back := m.sectionHeader + n + m.sectionText + body + m.sectionClose;
    assert SectionBlock(m, n, body) == m.sectionOpen + n + back;
    AfterFront(m.sectionOpen, n, back, |m.sectionOpen| - |key|);
  }

  /** Link `i` and section `i` name the same anchor, and the number in it
      is the stem of part `i` with every `part_` deleted. */
  lemma AnchorsAgree(m: Markup, key: string, parts: seq<Part>, i: nat)
    requires Anchored(m, key) && i < |parts|
    ensures TargetAt(TocLinks(m, parts)[i], |m.linkOpen|, key, PartNumber(parts[i].stem))
    ensures IdAt(Sections(m, parts)[i], |m.sectionOpen|, key, PartNumber(parts[i].stem))
  {
    LinkOfPart(m, parts, i);
    SectionOfPart(m, parts, i);
    LinkTarget(m, key, PartNumber(parts[i].stem));
    SectionId(m, key, PartNumber(parts[i].stem), SectionBody(m, parts[i].content));
  }

  /** Stripping is all a section does to the text: a part with words shows
      exactly its stripped text, markup included, with every word kept. */
  lemma SectionShowsStrippedText(m: Markup, p: Part)
    requires |Split(p.content)| > 0
    ensures SectionBlock(m, PartNumber(p.stem), SectionBody(m, p.content))
      == SectionBlock(m, PartNumber(p.stem), Strip(p.content))
    ensures |Split(SectionBody(m, p.content))| == |Split(p.content)|
  {
    SectionBodyCases(m, p.content);
    StripKeepsWordCount(p.content);
  }
}
