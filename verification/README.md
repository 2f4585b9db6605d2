# Combining the Polish parts into one HTML page

`combine_polish_to_html.py` turns a directory of text files `part_*.txt`
into a single HTML page. It takes the files in name order and counts the
words of all of them. It then writes the page: a fixed head, a statistics
panel (number of parts, word total, page count of the printed original),
one table-of-contents link per part, one section per part and a fixed
footer. This project models that pipeline as pure functions over the
sequence of `(stem, content)` pairs the directory yields. It proves what
the script promises about the page it writes.

Modules, one per file:

- `Text` (`text.dfy`): whitespace and digits, and `Concat` of a sequence of strings, with lemmas about where each piece lands.
- `Words` (`words.dfy`): `str.split()` and the word count, against a reference count of word starts.
- `Trim` (`trim.dfy`): `str.strip()`.
- `Replace` (`replace.dfy`): `str.replace(pat, '')`, the left-to-right scan that deletes every occurrence.
- `NumberFormat` (`numberformat.dfy`): `str(n)` and `f"{n:,}".replace(',', ' ')`.
- `Parts` (`parts.dfy`): an input file; the name order the sorted glob delivers; the part number shown for a stem.
- `Totals` (`totals.dfy`): the first pass, the word total over all parts.
- `Anchors` (`anchors.dfy`): what a `#` link target and an `id` attribute look like in HTML text.
- `Layout` (`layout.dfy`): the order in which the page is concatenated, independent of its fixed text.
- `Combine` (`combine.dfy`): the assembler, parametrised by the fixed text and the markup around each part.
- `Script` (`script.dfy`): the assembler with the script's own markup, placeholder and page count.

The fixed text of the page (`Layout.Template`) and the markup around each
part (`Combine.Markup`) are parameters of the assembler. The script's own
values appear only in `Script`. A lemma about the assembler therefore
holds for any fixed text, and for the script in particular.

The page-level properties are stated in two steps:

- The page is `Render(t, Assemble(m, parts))`.
- `Render` places every link and section at its offset (`Layout.RenderLinkAt`, `Layout.RenderSectionAt`). The links of the assembled page are `TocLinks(m, parts)` and its sections are `Sections(m, parts)`.

So `Combine.AnchorsAgree` is about link `i` and section `i` themselves, and
the two `Layout` lemmas say where they stand in the page.

## Model

| member | source | states |
|---|---|---|
| Words.Split | combine_polish_to_html.py:30 | every word `str.split()` yields is non-empty and holds no whitespace |
| Words.SplitCountsRunStarts | combine_polish_to_html.py:30 | the number of words equals the number of word starts: positions with a non-whitespace character at the start or after whitespace |
| Words.NoRunStartsIffAllSpace | combine_polish_to_html.py:30 | a text has no word start exactly when it is all whitespace |
| Words.CountWords | combine_polish_to_html.py:30 | the one-pass count is `len(content.split())`, and it is zero exactly when the text is all whitespace |
| Trim.Strip | combine_polish_to_html.py:359 | `strip()` yields nothing exactly for an all-whitespace text, and otherwise a text that starts and ends with non-whitespace |
| Trim.StripCharacterized | combine_polish_to_html.py:359 | any infix with whitespace margins and non-whitespace ends is the stripped text, so stripping removes exactly the outer whitespace |
| Trim.StripIdempotent | combine_polish_to_html.py:359 | stripping the stripped text changes nothing |
| Trim.StripKeepsWordCount | combine_polish_to_html.py:359-361 | the stripped text has as many words as the raw text, so the per-file count while rendering agrees with the one added to the total |
| Trim.StripEmptyIffNoWords | combine_polish_to_html.py:359-365 | the stripped text is empty exactly when the raw text has no word |
| Replace.Find | combine_polish_to_html.py:343 | the scan finds the leftmost occurrence of the pattern at or after the start position, or reports that there is none |
| Replace.DeleteFromFree | combine_polish_to_html.py:343 | once no occurrence is left ahead of the scan, the rest of the text is kept as it is |
| Replace.SplitFromFree | combine_polish_to_html.py:343 | no piece between the occurrences the scan finds contains the pattern |
| Replace.DeleteAll | combine_polish_to_html.py:343 | deleting never lengthens a text and leaves a text without the pattern unchanged |
| Replace.SplitJoinRoundTrip | combine_polish_to_html.py:343 | the text cut at every occurrence and joined back with the pattern is the original text |
| Replace.DeleteAllKeepsPieces | combine_polish_to_html.py:343 | `replace(pat, '')` is the concatenation of the pieces between the occurrences of the pattern, and no piece contains the pattern |
| Replace.DeletionCanCreateMatch | combine_polish_to_html.py:343 | one deletion pass can leave a new occurrence behind: `papart_rt_` becomes `part_`, so the deletion is not idempotent |
| NumberFormat.Decimal | combine_polish_to_html.py:315 | `str(n)` is a canonical digit string, without a superfluous leading zero, whose value is `n` |
| NumberFormat.DecimalOfValue | combine_polish_to_html.py:315 | every canonical digit string is `str` of its value, so `str` and reading back are inverse |
| NumberFormat.GroupDigits | combine_polish_to_html.py:319 | the `,` grouping puts a separator before every third digit from the right, with a leading group of one to three digits, and removing the separators gives the digits back |
| NumberFormat.ReplaceChar | combine_polish_to_html.py:319 | every occurrence of the character is replaced, every other character and the length are kept |
| NumberFormat.WithoutRenamed | combine_polish_to_html.py:319 | replacing the commas by spaces keeps what remains once the separators are removed |
| NumberFormat.GroupedRenamed | combine_polish_to_html.py:319 | replacing every comma of a comma-grouped numeral by a space gives a space-grouped numeral |
| NumberFormat.ThousandsSpaced | combine_polish_to_html.py:319 | the word total reads as digits grouped by single spaces with a leading group of one to three digits; without the spaces it is `str(n)`, whose value is `n` |
| Parts.BelowAfterPrefix | combine_polish_to_html.py:15 | a common prefix does not change the name order |
| Parts.PartNumberOfNumberedStem | combine_polish_to_html.py:343 | the stem `part_<digits>` is shown as part `<digits>` |
| Parts.PartNumberDeletesEveryTag | combine_polish_to_html.py:343 | for every stem, the part number is the concatenation of the pieces between the occurrences of `part_` the scan finds, and those pieces joined with `part_` give the stem back, so every occurrence is deleted, not only the leading one |
| Parts.DistinctNumbers | combine_polish_to_html.py:342-344 | for stems `part_<digits>`, different files are shown under different part numbers |
| Parts.NumbersMayCollide | combine_polish_to_html.py:343 | `part_1.txt` and `part_part_1.txt` are both matched by the glob, sorted, and both shown as part `1` |
| Totals.SumWordsAppend | combine_polish_to_html.py:26-30 | the word total of two lists of parts is the sum of their totals |
| Totals.SumWordsReorder | combine_polish_to_html.py:26-30 | the word total does not depend on the order of the parts |
| Totals.SumWordsZero | combine_polish_to_html.py:26-30 | the word total is zero exactly when every part is all whitespace |
| Totals.CountTotalWords | combine_polish_to_html.py:26-30 | the first pass adds up `len(content.split())` over all parts, and yields zero exactly when every part is all whitespace |
| Layout.RenderPieces | combine_polish_to_html.py:33-382 | the page is the head, the links, the text between links and sections, the sections and the footer, concatenated in that order |
| Layout.HeadFrame | combine_polish_to_html.py:313-325 | within the head, the fixed text comes first, then the parts statistic, the word total and the page count, each at its own offset |
| Layout.RenderEnds | combine_polish_to_html.py:313-382 | the page starts with its head, the fixed text and the three statistics, and ends with the footer |
| Layout.RenderHeadSlice | combine_polish_to_html.py:313-325 | every stretch of the page before the table of contents is the same stretch of the head |
| Layout.RenderPartsStat | combine_polish_to_html.py:315 | the parts statistic stands in the page right after the opening text |
| Layout.RenderWordsStat | combine_polish_to_html.py:319 | the word total stands in the page at its offset, after the parts statistic and its label |
| Layout.RenderPagesStat | combine_polish_to_html.py:323 | the fixed page count stands in the page at its offset, after the word total and its label |
| Layout.RenderLinkAt | combine_polish_to_html.py:342-345 | link `i` stands in the page at the head's end plus the lengths of the links before it |
| Layout.RenderSectionAt | combine_polish_to_html.py:354-367 | section `i` stands in the page after all links and the sections before it |
| Layout.RenderOrder | combine_polish_to_html.py:339-369 | links follow each other in order, so do sections, and every link ends before any section starts |
| Combine.SectionBodyCases | combine_polish_to_html.py:359-365 | a section shows the placeholder when its text has no word, and otherwise the stripped text, unescaped, which is non-empty and has non-whitespace ends |
| Combine.SectionShowsStrippedText | combine_polish_to_html.py:359-365 | a part with words shows exactly its stripped text, with as many words as the raw text |
| Combine.TocLinks | combine_polish_to_html.py:342-345 | the table of contents has exactly one link per part |
| Combine.Sections | combine_polish_to_html.py:354-367 | the page has exactly one section per part |
| Combine.LinkOfPart | combine_polish_to_html.py:342-345 | link `i` is the link of part `i`, labelled and targeted with the part number of stem `i` |
| Combine.SectionOfPart | combine_polish_to_html.py:354-367 | section `i` is the section of part `i`: the part number of stem `i` and the body of its text |
| Combine.Assemble | combine_polish_to_html.py:315-319 | the parts statistic is a canonical numeral whose value is the number of parts; the word total is grouped by spaces and, without them, is the numeral of the total over all parts |
| Combine.CombineWith | combine_polish_to_html.py:17-19 | a run writes nothing exactly when no part was found |
| Combine.BlocksInOrder | combine_polish_to_html.py:342-367 | in the written page, links and sections keep the input order, and the table of contents precedes all sections |
| Combine.LinkTarget | combine_polish_to_html.py:344 | the link of part `n` carries `href="#<key><n>"`, the number closed by the attribute's quote |
| Combine.SectionId | combine_polish_to_html.py:363 | the section of part `n` carries `id="<key><n>"`, the number closed by the attribute's quote |
| Combine.AnchorsAgree | combine_polish_to_html.py:343-363 | link `i` targets the anchor that section `i` declares, and its number is stem `i` with every `part_` deleted |
| Script.CombineToHtml | combine_polish_to_html.py:17-19 | the script writes no page exactly when the directory holds no part |
| Script.ScriptPageCount | combine_polish_to_html.py:323 | every page written with the script's fixed text states `508` at the page-count slot, whatever the parts |
| Script.ScriptAnchored | combine_polish_to_html.py:344-363 | the script's links carry `href="#section-<n>"` and its sections carry `id="section-<n>"` |
| Script.PlaceholderIsAmbiguous | combine_polish_to_html.py:365 | a part whose text is the placeholder itself renders exactly like a part without words |

## Left out

- Finding the files: the glob and the sort at line 15 are not modelled. `Parts.GlobbedAndSorted` stands for what they deliver: names `part_*.txt` in strictly ascending code-point order. Python compares the paths; with one parent directory this is the order of the names. A directory whose name matches the glob would make the script fail when it opens it; that is not modelled.
- Stems with lone surrogates: a Python `str` can hold them, for instance from a file name with undecodable bytes under the surrogateescape handler, but a Dafny `char` cannot. Such stems cannot be represented. The script raises `UnicodeEncodeError` on them, either at the `print` of the file name at line 361 (on a console whose encoding uses strict errors) or at the write at line 387.
- Case-insensitive path comparison on Windows: the model orders names by code point, as on POSIX.
- Reading, decoding and writing files (lines 28-29, 358-359, 384-387) is input and output. The model assumes that both reads of a file (lines 28-29 and 358-359) return the same text.
- The output file's size in KB (line 389) is a filesystem query formatted as a float.
- Every `print` (lines 18, 21-23, 361, 391-396) and the `__main__` block with its fixed paths (lines 398-406).
- The viewport `<meta>` and the `<title>` (lines 37-38), the stylesheet, the banner, the info-box heading (line 308), the description paragraph, the paragraph on the original edition and the footer text are abbreviated in `Script`. Nothing about them is proved; the structural markup around the statistics, the links and the sections is exact.
- Determinism: every operation is a pure function, so equal inputs give equal pages; no separate lemma states it.
- `str.replace` with an empty pattern: the script's pattern is the fixed `part_`, so `Replace` requires a non-empty pattern.
- Words.Split: the contract does not say that the words occur in the text in order; the script only uses how many there are, which `Words.SplitCountsRunStarts` pins down.
- Combine.AnchorsAgree: it is stated on link `i` and section `i` themselves. Their place in the page follows from `Layout.RenderLinkAt` and `Layout.RenderSectionAt`; no single lemma restates the anchors at page offsets.
- Combine.Assemble: what the statistics mean is stated for the assembled page. Their place in the written text follows from `Layout.RenderPartsStat`, `Layout.RenderWordsStat` and `Layout.RenderPagesStat` applied to the page that `Combine.CombineWith` renders; no single lemma restates the statistics at page offsets.

## Notes

- The part number deletes every `part_` in the stem (line 343). So `part_1.txt` and `part_part_1.txt` are both shown as part `1`, with two sections carrying the same `id` (`Parts.NumbersMayCollide`). Only stems of the form `part_<digits>` are guaranteed distinct numbers (`Parts.DistinctNumbers`).
- The placeholder is plain text inside the section. A part whose text is exactly `[Brak treści w tej części]` cannot be told apart from an empty part (`Script.PlaceholderIsAmbiguous`).
- Whitespace is the set of characters for which Python's `str.isspace` holds. `split()` and `strip()` use the same set.
