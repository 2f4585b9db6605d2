/** `combine_polish_to_html` with the fixed text the script writes. */
module Script {
  import opened Text
  import opened Trim
  import opened Layout
  import opened Parts
  import opened Combine

  /** The page count of the printed original, fixed whatever the input. */
  const OriginalPages: string := "508"

  /** Document head, stylesheet, banner, the description paragraph and the
      opening of the statistics panel, up to where the parts statistic goes.
      The viewport `meta` element, the `title`, the stylesheet, the banner,
      the info-box heading and the description are elided: only where this
      block stands is modelled. */
  const Preamble: string :=
    "<!DOCTYPE html>\n<html lang=\"pl\">\n<head>\n    <meta charset=\"UTF-8\">\n    <style>\n    </style>\n</head>\n<body>\n"
    + "    <div class=\"container\">\n        <div class=\"info-box\">\n            <div class=\"stats\">\n"
    + "                <div class=\"stat-item\">\n                    <div class=\"stat-number\">"

  const AfterPartsStat: string :=
    "</div>\n                    <div class=\"stat-label\">Części</div>\n                </div>\n"
    + "                <div class=\"stat-item\">\n                    <div class=\"stat-number\">~"

  const AfterWordsStat: string :=
    "</div>\n                    <div class=\"stat-label\">Słów</div>\n                </div>\n"
    + "                <div class=\"stat-item\">\n                    <div class=\"stat-number\">"

  /** From the page count to the start of the link grid; the paragraph
      on the original edition that follows the statistics is elided. */
  const TocOpen: string :=
    "</div>\n                    <div class=\"stat-label\">Stron (oryginał)</div>\n                </div>\n"
    + "            </div>\n        </div>\n\n        <div class=\"toc\">\n"
    + "            <h2>\U{1F4D1} Spis Treści - Szybka Nawigacja</h2>\n            <div class=\"toc-grid\">\n"

  const TocClose: string := "            </div>\n        </div>\n\n        <div class=\"content\">\n"

  /** Closing markup; the footer text is elided. */
  const Footer: string :=
    "        </div>\n    </div>\n\n    <a href=\"#\" class=\"back-to-top\">\U{2191} Góra</a>\n\n"
    + "    <div class=\"footer\">\n    </div>\n</body>\n</html>"

  /** The fixed text of the page. */
  const PolishPage: Template :=
    Template(Preamble, AfterPartsStat, AfterWordsStat, OriginalPages, TocOpen, TocClose, Footer)

  /** Shown instead of the text of a part that holds only whitespace. */
  const Placeholder: string := "[Brak treści w tej części]"

  /** The quote that closes the `href` and `id` attributes. */
  const Quote: string := "\""

  /** The link and section markup around each part. */
  const PolishMarkup: Markup := Markup(
    "                <a href=\"#section-",
    Quote + " class=\"toc-link\">Część ",
    "</a>\n",
    "            <div class=\"section\" id=\"section-",
    Quote + ">\n                <div class=\"section-header\">Część ",
    "</div>\n                <div class=\"section-content\">",
    "</div>\n            </div>\n",
    Placeholder)

  /** The run of the script: its own fixed text around the assembled page,
      and no page at all for an empty directory. */
  function CombineToHtml(parts: seq<Part>): (out: Outcome)
    requires GlobbedAndSorted(parts)
    ensures out.NothingWritten? <==> parts == []
  {
    CombineWith(PolishPage, PolishMarkup, parts)
  }

  /** Every page the script writes states `508` pages at the page-count
      slot, whatever the parts. */
  lemma ScriptPageCount(page: Page)
    ensures var html, at := Render(PolishPage, page), PagesStatOffset(PolishPage, page);
      at + 3 <= |html| && html[at..at + 3] == "508"
  {
    RenderPagesStat(PolishPage, page);
  }

  /** The name every anchor of the script starts with. */
  const AnchorKey: string := "section-"

  /** The script's links carry `href="#section-<n>"` and its sections
      carry `id="section-<n>"`. */
  lemma ScriptAnchored()
    ensures Anchored(PolishMarkup, AnchorKey)
  {
    var m := PolishMarkup;
    assert m.linkOpen[|m.linkOpen| - 8..] == AnchorKey;
    assert m.sectionOpen[|m.sectionOpen| - 8..] == AnchorKey;
  }

  /** A part whose text is literally the placeholder renders exactly like an
      empty part. */
  lemma PlaceholderIsAmbiguous()
    ensures SectionBody(PolishMarkup, Placeholder) == SectionBody(PolishMarkup, "") == Placeholder
  {
    var s := Placeholder;
    assert !IsSpace(s[0]) && !IsSpace(s[|s| - 1]);
    StripCharacterized(s, 0, |s|);
    assert s[0..|s|] == s;
  }
}
