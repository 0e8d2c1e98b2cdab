# pdf-catalog-extractor, modelled in Dafny

The extractor turns the pages of a hardware catalogue into structured
records. For each page in a range it does two things. It tags the page
with the first product series whose name occurs in the text, ignoring case.
It also cuts the text into *components*: a header line opens a component,
and the lines that follow feed it key/value parameters and part numbers.
A separate planning script cuts the catalogue's page range into batches of
thirty pages.

The model has one module per part of the program:

- `TextUtil` (`text.dfy`) holds the string builtins the code relies on:
  `str.strip`, `str.split('\n')`, upper-casing for case-insensitive search,
  and substring search.
- `HeaderPattern` (`header.dfy`) holds the header test
  `^(\d+\.|[A-Z][a-zA-Z\s\-]+set)`. It is written as a scanner and proved
  equal to a direct statement of the expression's language.
- `Assembler` (`assembler.dfy`) holds `extract_components_from_text`. The
  source's loop is a method, proved to compute a fold of a one-line
  transition (`Run`/`Step`). The properties are lemmas about that fold and
  about reference definitions (`Headers`, `Build`, `KeepFirst`,
  `LastKeyAt`).
- `SeriesDetector` (`series.dfy`) holds `extract_series_from_text`: the
  first keyword of `SERIES_PATTERNS` that the page mentions, or
  `"Unknown"`.
- `PageDriver` (`pages.dfy`) holds `extract_products_from_pdf`, run over the
  texts of the document's pages. Its loop is a method, proved against the
  fold `PageResults`.
- `BatchPlan` (`batches.dfy`) holds `calculate_batches`, with the start
  page, end page and batch size as parameters. `CalculateBatches` is the
  source's fixed instance: pages 16 to 736 in batches of 30.

`pdf_catalog_extractor/extractor.py` and `full_extract_script.py` contain
identical copies of the three extraction functions (`full_extract_script.py:28-75`),
so one model covers both.

## Model

| member | source | states |
|---|---|---|
| TextUtil.Split | pdf_catalog_extractor/extractor.py:14 | a split yields at least one piece, and no piece contains the separator |
| TextUtil.JoinSplit | pdf_catalog_extractor/extractor.py:14 | joining the pieces of `text.split('\n')` with `'\n'` gives back the text |
| TextUtil.SplitCount | pdf_catalog_extractor/extractor.py:14 | there is one more line than there are line feeds |
| TextUtil.TrimStartCutsFront | pdf_catalog_extractor/extractor.py:18 | leading-whitespace removal cuts only whitespace and stops at the first other character |
| TextUtil.TrimEndCutsBack | pdf_catalog_extractor/extractor.py:18 | trailing-whitespace removal cuts only whitespace and stops at the last other character |
| TextUtil.StripCutsOnlyWhitespace | pdf_catalog_extractor/extractor.py:18 | `line.strip()` is a contiguous infix of the line, only whitespace is cut from either end, and the result neither starts nor ends with whitespace |
| TextUtil.StripIdempotent | pdf_catalog_extractor/extractor.py:18 | stripping a stripped line changes nothing |
| HeaderPattern.SetScan | pdf_catalog_extractor/extractor.py:21 | the scan for `set` succeeds exactly when `set` starts at some offset of at least two, preceded only by characters of `[a-zA-Z\s\-]` |
| HeaderPattern.IsHeaderIsRegexMatch | pdf_catalog_extractor/extractor.py:21 | the header test accepts a line exactly when one of the two alternatives of the header expression, `\d+\.` or `[A-Z][a-zA-Z\s\-]+set`, matches at its start |
| HeaderPattern.ShortOrdinalIsHeader | pdf_catalog_extractor/extractor.py:19-21 | `"1."` would pass the header test, but it is shorter than three characters, so the length check skips it first (`Assembler.ShortLineIgnored` proves that such a line changes nothing) |
| Assembler.ExtractComponentsFromText | pdf_catalog_extractor/extractor.py:13-35 | the loop over lines returns the components of the fold of the one-line transition, with the open component flushed at the end |
| Assembler.ComponentsFollowHeaders | pdf_catalog_extractor/extractor.py:21-34 | there are exactly as many components as header lines; component `i` is named after the `i`-th stripped header line; a component is open iff some header has been seen |
| Assembler.PartNumbersDistinct | pdf_catalog_extractor/extractor.py:30-32 | no component, whether closed, open or returned, lists a part number twice |
| Assembler.AddPartsKeepsDistinct | pdf_catalog_extractor/extractor.py:30-32 | adding found part numbers keeps the old list as a prefix, yields exactly the old and the found numbers, and adds no duplicate |
| Assembler.AddPartsIsKeepFirst | pdf_catalog_extractor/extractor.py:30-32 | appending the numbers not yet present equals first-seen deduplication of the concatenation |
| Assembler.AddOnePart | pdf_catalog_extractor/extractor.py:31-32 | adding a number already present changes nothing; adding a new one appends it at the end |
| Assembler.KeepFirstOfDistinct | pdf_catalog_extractor/extractor.py:30-32 | first-seen deduplication leaves a duplicate-free list as it is |
| Assembler.KeepFirstElements | pdf_catalog_extractor/extractor.py:30-32 | first-seen deduplication keeps every value that occurs, and adds none |
| Assembler.ShortLineIgnored | pdf_catalog_extractor/extractor.py:18-20 | a line shorter than three characters once stripped, wherever it sits, leaves the whole outcome unchanged |
| Assembler.PrefixWithoutHeaderIgnored | pdf_catalog_extractor/extractor.py:26-32 | lines before the first header have no effect, because their parameters and part numbers have no component to go to |
| Assembler.NoHeaderNothingOpen | pdf_catalog_extractor/extractor.py:26-34 | text without a header line yields no component at all |
| Assembler.SetParamsConcat | pdf_catalog_extractor/extractor.py:28-29 | writing pairs in two batches equals writing them in one |
| Assembler.AddPartsConcat | pdf_catalog_extractor/extractor.py:30-32 | adding part numbers in two batches equals adding them in one |
| Assembler.HeaderOpensComponent | pdf_catalog_extractor/extractor.py:21-32 | after a header and the non-header lines that follow it, the earlier components are closed, and the open one is built from that header and those lines alone |
| Assembler.StepInBody | pdf_catalog_extractor/extractor.py:26-32 | one non-header line extends the open component with that line's pairs and part numbers |
| Assembler.SpanAddsOneComponent | pdf_catalog_extractor/extractor.py:21-34 | a header with its body lines adds exactly one component, appended after those of the earlier lines |
| Assembler.SpanComponent | pdf_catalog_extractor/extractor.py:21-32 | that component is named after the stripped header; its part numbers are the first-seen deduplication of all tokens of its body; a key holds the value of its last pair; a key no pair names is absent |
| Assembler.HeaderAfterHeader | pdf_catalog_extractor/extractor.py:21-25 | a new component starts with no parameters and no part numbers; two headers in a row give an empty component |
| Assembler.LastWriteWins | pdf_catalog_extractor/extractor.py:28-29 | after the writes, a key holds the stripped value of the last pair whose stripped key it is; a key no pair names keeps its old binding |
| Assembler.LastPairWins | pdf_catalog_extractor/extractor.py:28-29 | the last pair with a given stripped key decides that key's value |
| Assembler.UnnamedKeyKept | pdf_catalog_extractor/extractor.py:28-29 | a key that no pair names keeps its presence and its value |
| SeriesDetector.MentionsIgnoresCase | pdf_catalog_extractor/extractor.py:39 | the keyword search does not depend on letter case: two texts equal up to case mention exactly the same keywords |
| SeriesDetector.FirstMentioned | pdf_catalog_extractor/extractor.py:38-40 | the scan stops at the first keyword the text mentions; none before it is mentioned; it reaches the end only when none is |
| SeriesDetector.DetectSeries | pdf_catalog_extractor/extractor.py:37-41 | the result is one of the fourteen keywords or `"Unknown"`; it is `"Unknown"` iff no keyword occurs, ignoring case; otherwise it is the earliest keyword in the list that occurs |
| SeriesDetector.ClipBeatsLegrabox | pdf_catalog_extractor/extractor.py:6-8 | the list order is the tie-break: a page that mentions CLIP and LEGRABOX but not AVENTOS is tagged CLIP |
| PageDriver.ExtractProductsFromPages | pdf_catalog_extractor/extractor.py:43-57 | the entries are the pages of `[start_page, min(end_page + 1, n))` that have a component, in ascending page order and numbered from 1, each with the series and components of its own text; no such page is missing; there are none when the range is empty |
| PageDriver.ProductsProperties | pdf_catalog_extractor/extractor.py:46-55 | for every document and range: page numbers lie in `[start_page + 1, min(end_page + 1, n)]` and strictly increase, each entry is faithful to its page, every page with a component is listed, and nothing is listed when `start_page > end_page` or `start_page >= n` |
| PageDriver.PageResultsSound | pdf_catalog_extractor/extractor.py:46-55 | every entry from a range of page indices lies in that range, holds its own page's analyses and a component, and the numbers strictly increase |
| PageDriver.PageResultsComplete | pdf_catalog_extractor/extractor.py:46-55 | every page of the range with at least one component has an entry |
| BatchPlan.CalculateBatchesFor | full_extract_plan.py:6-41 | the loop returns the plan; the count is the ceiling of pages over batch size; the first batch starts at `start - 1`; the last ends at `end - 1`; an empty range gives no batch |
| BatchPlan.CalculateBatches | full_extract_plan.py:6-41 | the fixed plan has 25 batches, the first `(15, 44)` and the last `(735, 735)` |
| BatchPlan.PlanCount | full_extract_plan.py:12-13 | `n` batches of `size` pages hold the whole range and `n - 1` do not; an empty range gives none |
| BatchPlan.PlanEnds | full_extract_plan.py:24-32 | the first batch starts at 0-based index `start - 1` and the last ends at `end - 1` |
| BatchPlan.PlanSizes | full_extract_plan.py:26-27 | every batch but the last spans exactly `size` pages; the last spans between 1 and `size` |
| BatchPlan.PlanContiguous | full_extract_plan.py:26-27 | each batch starts right after the previous one ends |
| BatchPlan.PlanAscending | full_extract_plan.py:25-32 | a batch ends before any later batch starts |
| BatchPlan.PlanCovers | full_extract_plan.py:25-32 | a page index is in some batch iff it lies in `[start - 1, end - 1]`, and then it is in exactly one batch |
| BatchPlan.FixedPlan | full_extract_plan.py:8-13 | 16 to 736 is 721 pages in 25 batches: `(15, 44)` first, `(705, 734)` second to last, `(735, 735)` last |

## Left out

- Opening the PDF and reading page text (`fitz.open`, `get_text`, `doc.close`) is left out. The driver receives the page texts as a sequence.
- The command-line front ends are left out: argument parsing, JSON output and progress prints (`main` in `full_extract_script.py`, `scripts/run_extract.py`). So are the prints and the time/size estimates in `calculate_batches`.
- `generate_extract_script` is left out. It writes a further program to a file, and that program's own functions are not part of this model.
- The parameter and part-number patterns (`PARAM_PATTERN`, `PARTNO_PATTERN`) and their `re.findall` are parameters of the model (`Extractors`). Every property holds whatever pairs and tokens they return.
- The concrete assertion in `tests/test_extractor.py` needs the real part-number pattern, so it is left out. That pattern is case-sensitive, so it does not match the test's lowercase `Part no.`.
- Character classes are ASCII only. `\s` and `str.isspace` are tab through carriage return, 0x1C to 0x1F, and space. `\d` is `0`-`9`. `re.IGNORECASE` is ASCII upper-casing. Unicode whitespace, Unicode digits and Unicode case folding are not modelled.
- Component names are the stripped header line, with no length cap and no whitespace normalisation, as at `pdf_catalog_extractor/extractor.py:24`.
- The key order of a component's `params` is not modelled. The model keeps them in a `map`, which has no order, while Python's dict keeps insertion order, and that order becomes the key order of the JSON output.
- PageDriver.ExtractProductsFromPages: requires `start_page >= 0`. A negative start would read pages through Python's negative indexing from the end of the document, and that is not modelled.
- BatchPlan.CalculateBatchesFor: the three constants of `calculate_batches` are parameters (any batch size above zero). `CalculateBatches` and `FixedPlan` state the source's own values.
