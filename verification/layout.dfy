/** The shape of the generated page, independent of its fixed text: the
    fixed pieces of a template interleaved with the two statistics, the
    table-of-contents links and the sections. */
module Layout {
  import opened Text

  /** The fixed text of a page, in the order it is emitted. */
  datatype Template = Template(
    preamble: string,    // head, stylesheet, banner, up to the parts statistic
    afterParts: string,  // from the parts statistic to the word total
    afterWords: string,  // from the word total to the page count
    pages: string,       // the page count of the printed original
    tocOpen: string,     // from the page count to the first link
    tocClose: string,    // from the last link to the first section
    footer: string)      // after the last section

  /** The generated parts of a page. */
  datatype Page = Page(partsStat: string, wordsStat: string, links: seq<string>, sections: seq<string>)

  /** The pieces of the page in the order the script emits them. */
  function Pieces(t: Template, page: Page): seq<string> {
    [t.preamble, page.partsStat, t.afterParts, page.wordsStat, t.afterWords, t.pages, t.tocOpen,
     Concat(page.links), t.tocClose, Concat(page.sections), t.footer]
  }

  /** The page as text, concatenated in the order the script builds it. */
  function Render(t: Template, page: Page): string {
    Concat(Pieces(t, page))
  }

  /** The page up to the first link: the fixed text around the three
      statistics. */
  function Head(t: Template, page: Page): string {
    Concat(Pieces(t, page)[..7])
  }

  lemma HeadSpelledOut(t: Template, page: Page)
    ensures Head(t, page)
      == t.preamble + page.partsStat + t.afterParts + page.wordsStat + t.afterWords + t.pages + t.tocOpen
  {
    var ps := Pieces(t, page);
    assert ps[..0] == [];
    ConcatPrefixStep(ps, 0); ConcatPrefixStep(ps, 1); ConcatPrefixStep(ps, 2); ConcatPrefixStep(ps, 3);
    ConcatPrefixStep(ps, 4); ConcatPrefixStep(ps, 5); ConcatPrefixStep(ps, 6);
  }

  lemma HeadLength(t: Template, page: Page)
    ensures |Head(t, page)| == TocStart(t, page)
  {
    HeadSpelledOut(t, page);
  }

  /** The rendered page: the head, the links, the fixed text between
      links and sections, the sections and the footer. */
  lemma RenderPieces(t: Template, page: Page)
    ensures Render(t, page)
      == Head(t, page) + Concat(page.links) + t.tocClose + Concat(page.sections) + t.footer
  {
    var ps := Pieces(t, page);
    ConcatPrefixStep(ps, 7); ConcatPrefixStep(ps, 8); ConcatPrefixStep(ps, 9); ConcatPrefixStep(ps, 10);
    assert ps[..11] == ps;
  }

  function WordsStatOffset(t: Template, page: Page): nat {
    |t.preamble| + |page.partsStat| + |t.afterParts|
  }

  function PagesStatOffset(t: Template, page: Page): nat {
    WordsStatOffset(t, page) + |page.wordsStat| + |t.afterWords|
  }

  function TocStart(t: Template, page: Page): nat {
    PagesStatOffset(t, page) + |t.pages| + |t.tocOpen|
  }

  /** Where the `i`-th link starts in the rendered page. */
  function LinkOffset(t: Template, page: Page, i: nat): nat
    requires i <= |page.links|
  {
    TocStart(t, page) + |Concat(page.links[..i])|
  }

  function SectionsStart(t: Template, page: Page): nat {
    TocStart(t, page) + |Concat(page.links)| + |t.tocClose|
  }

  /** Where the `i`-th section starts in the rendered page. */
  function SectionOffset(t: Template, page: Page, i: nat): nat
    requires i <= |page.sections|
  {
    SectionsStart(t, page) + |Concat(page.sections[..i])|
  }

  /** Within the head: the fixed preamble, then the parts statistic, the
      word total and the page count, each at its offset. */
  lemma HeadFrame(t: Template, page: Page)
    ensures var h := Head(t, page);
      && |h| == TocStart(t, page)
      && h[..|t.preamble|] == t.preamble
      && h[|t.preamble|..|t.preamble| + |page.partsStat|] == page.partsStat
      && h[WordsStatOffset(t, page)..WordsStatOffset(t, page) + |page.wordsStat|] == page.wordsStat
      && h[PagesStatOffset(t, page)..PagesStatOffset(t, page) + |t.pages|] == t.pages
  {
    HeadSpelledOut(t, page);
    var ws, p := page.wordsStat, t.pages;
    SliceMiddle([], t.preamble, page.partsStat + t.afterParts + ws + t.afterWords + p + t.tocOpen);
    SliceMiddle(t.preamble, page.partsStat, t.afterParts + ws + t.afterWords + p + t.tocOpen);
    SliceMiddle(t.preamble + page.partsStat + t.afterParts, ws, t.afterWords + p + t.tocOpen);
    SliceMiddle(t.preamble + page.partsStat + t.afterParts + ws + t.afterWords, p, t.tocOpen);
  }

  /** The page opens with its head and closes with the footer, and the
      two do not overlap. */
  lemma RenderEnds(t: Template, page: Page)
    ensures var html := Render(t, page);
      && |Head(t, page)| <= |html| - |t.footer|
      && html[0..|Head(t, page)|] == Head(t, page)
      && html[|html| - |t.footer|..] == t.footer
  {
    var html, h := Render(t, page), Head(t, page);
    RenderPieces(t, page);
    var rest := Concat(page.links) + t.tocClose + Concat(page.sections);
    assert html == h + rest + t.footer;
    assert html[0..|h|] == h;
    assert html[|html| - |t.footer|..] == t.footer;
  }

  /** Any stretch of the head stands at the same place in the page. */
  lemma RenderHeadSlice(t: Template, page: Page, lo: nat, hi: nat)
    requires lo <= hi <= TocStart(t, page)
    ensures hi <= |Head(t, page)| <= |Render(t, page)|
    ensures Render(t, page)[lo..hi] == Head(t, page)[lo..hi]
  {
    HeadLength(t, page);
    RenderEnds(t, page);
    SliceOfSlice(Render(t, page), 0, Head(t, page), lo, hi);
  }

  /** The parts statistic stands right after the preamble. */
  lemma RenderPartsStat(t: Template, page: Page)
    ensures var at := |t.preamble|;
      at + |page.partsStat| <= |Render(t, page)|
      && Render(t, page)[at..at + |page.partsStat|] == page.partsStat
  {
    HeadFrame(t, page);
    RenderHeadSlice(t, page, |t.preamble|, |t.preamble| + |page.partsStat|);
  }

  /** The word total stands at its offset. */
  lemma RenderWordsStat(t: Template, page: Page)
    ensures var at := WordsStatOffset(t, page);
      at + |page.wordsStat| <= |Render(t, page)|
      && Render(t, page)[at..at + |page.wordsStat|] == page.wordsStat
  {
    HeadFrame(t, page);
    RenderHeadSlice(t, page, WordsStatOffset(t, page), WordsStatOffset(t, page) + |page.wordsStat|);
  }

  /** The page count stands at its offset. */
  lemma RenderPagesStat(t: Template, page: Page)
    ensures var at := PagesStatOffset(t, page);
      at + |t.pages| <= |Render(t, page)|
      && Render(t, page)[at..at + |t.pages|] == t.pages
  {
    HeadFrame(t, page);
    RenderHeadSlice(t, page, PagesStatOffset(t, page), PagesStatOffset(t, page) + |t.pages|);
  }

  /** Link `i` stands at its offset. */
  lemma RenderLinkAt(t: Template, page: Page, i: nat)
    requires i < |page.links|
    ensures LinkOffset(t, page, i) + |page.links[i]| <= |Render(t, page)|
    ensures Render(t, page)[LinkOffset(t, page, i)..LinkOffset(t, page, i) + |page.links[i]|] == page.links[i]
  {
    RenderPieces(t, page);
    HeadLength(t, page);
    var tail := t.tocClose + Concat(page.sections) + t.footer;
    assert Render(t, page) == Head(t, page) + Concat(page.links) + tail;
    PieceAt(Head(t, page), page.links, tail, i);
  }

  /** Section `i` stands at its offset. */
  lemma RenderSectionAt(t: Template, page: Page, i: nat)
    requires i < |page.sections|
    ensures SectionOffset(t, page, i) + |page.sections[i]| <= |Render(t, page)|
    ensures Render(t, page)[SectionOffset(t, page, i)..SectionOffset(t, page, i) + |page.sections[i]|] == page.sections[i]
  {
    RenderPieces(t, page);
    HeadLength(t, page);
    var head := Head(t, page) + Concat(page.links) + t.tocClose;
    PieceAt(head, page.sections, t.footer, i);
  }

  /** Links follow each other in order, so do sections, and every link
      ends before any section starts. */
  lemma RenderOrder(t: Template, page: Page, i: nat, j: nat)
    requires |page.links| == |page.sections|
    requires i < |page.links| && j < |page.links|
    ensures i < j ==> LinkOffset(t, page, i) + |page.links[i]| <= LinkOffset(t, page, j)
    ensures i < j ==> SectionOffset(t, page, i) + |page.sections[i]| <= SectionOffset(t, page, j)
    ensures LinkOffset(t, page, i) + |page.links[i]| <= SectionOffset(t, page, j)
  {
    if i < j {
      ConcatPrefixGrows(page.links, i, j);
      ConcatPrefixGrows(page.sections, i, j);
    }
    ConcatPrefixGrows(page.links, i, |page.links|);
    assert page.links[..|page.links|] == page.links;
  }
}
