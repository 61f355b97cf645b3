# bs4_parser_pep, modelled in Dafny

A model of the pure-logic core of `bs4_parser_pep`. This is a small
command-line scraper with four modes:

- `whats-new` collects the "What's New in Python" articles: link, title and author line.
- `latest-versions` lists the Python documentation versions with their status.
- `download` fetches the PDF archive.
- `pep` reads the PEP index, fetches every PEP page and tallies the statuses shown there. It checks each status against the status its category letter leads one to expect.

The network and the HTML library are replaced by values:

- A fetched page is `Fetched<P>`: either the parsed page or the exception the fetch raised.
- A parsed page is a `Soup.Doc`, a document-order sequence of elements. Each element carries its tag name, its attributes and the content the scraper reads from it: its `.text`, its rows, or its own sub-elements.
- `find` is the first matching element and `find_all` every matching one.
- `urljoin` is a function parameter, `join`.

Every exception the routines can raise is a constructor of `Exceptions.ScrapeError`.

Modules:

- `Wrappers`: `Option` and `Result`.
- `PyStr`: `str.strip`, `in` and `replace('\n', ' ')`.
- `Soup`: `find` and `find_all`.
- `Exceptions`: the error constructors.
- `Constants`: the URLs and `EXPECTED_STATUS`.
- `Utils`: `find_tag`, `get_pep_status`, `parse_pep_list` and `process_pep_data`.
- `VersionPattern`: the regular expression of `latest_versions` under `re.search`.
- `Scraper`: `whats_new`, `latest_versions`, `pep`, the mode table and `main`.

The loops of the source are methods with loops. Each is proved equal to a specification function: `ParsePepList` to `PepList`, `ProcessPepData` to `PepSummary`, `WhatsNew` to `WhatsNewTable`, `FindVersionLinks` (the for/else search) to `VersionLinks`, and `LatestVersions` to `LatestVersionsTable`. `Pep`, the routine that calls two of these loops, is proved equal to `PepTable`. The behaviour the source promises is proved as lemmas about those functions.

The model follows the code, including where its behaviour may be unexpected:

- In `process_pep_data` only `RuntimeError` is caught. A `RequestError`, or any other failure while reading a PEP page, ends the whole routine, because those exceptions are not subclasses of `RuntimeError`.
- In `whats_new` an article that cannot be fetched, or that lacks its `h1` or `dl`, raises out of the routine. It is not skipped. The `soup is None` checks can never fire, because `get_soup` never returns `None`, so they are not modelled.
- When a PEP page itself shows the status "Total", `status_counts["Total"] = ...` overwrites that entry in place. "Total" then keeps its earlier position instead of coming last.

## Model

| member | source | states |
|---|---|---|
| Soup.FindFirst | src/utils.py:39 | `find` yields the first element in document order that matches the tag and attribute filter, and yields nothing exactly when no element matches |
| Soup.MatchPositions | src/main.py:35-37 | the positions `find_all` visits: strictly increasing, each one matching, and every matching position from the start offset on is among them |
| Soup.FindAll | src/main.py:35-37 | `find_all` yields one entry per matching position, in document order: the i-th entry is the element at the i-th matching position, and a position matches exactly when it is listed |
| Soup.FindAllMembers | src/main.py:35-37 | every entry of `find_all` is a matching element of the document, every matching element is among them, and there are no more entries than elements |
| Utils.FindTag | src/utils.py:37-43 | `find_tag` fails exactly when nothing matches, and then with `ParserFindTagException` for the filter; it never yields "nothing" |
| Utils.FindTagFirst | src/utils.py:37-43 | a found tag is the first matching element of the document |
| PyStr.Strip | src/utils.py:64 | `strip()` yields a slice of its input that neither starts nor ends with whitespace, and only whitespace is cut off on either side |
| Utils.GetPepStatus | src/utils.py:60-64 | a failed fetch propagates its exception; a fetched page always yields a status or `None` |
| Utils.GetPepStatusReads | src/utils.py:62-64 | the status is the stripped text of the first abbreviation with a title, and `None` exactly when no abbreviation has one |
| Utils.CategoryLetter | src/utils.py:83-85 | the letter is the second character of the stripped abbreviation text when that text is longer than one character, and "" otherwise, including a missing abbreviation |
| Utils.ReadRow | src/utils.py:74-88 | a row without cells or with PEP number "0" is skipped; a single-cell row raises `IndexError`; a kept row without a link raises; otherwise the row yields (letter, stripped number, joined link) |
| Utils.GatherInOrder | src/utils.py:73-90 | when no row raises, the result has one reference per kept row, in row order |
| Utils.GatherFails | src/utils.py:73-90 | the loop raises exactly when some row raises, and with the first such row's exception |
| Utils.CollectRefs | src/utils.py:79-81 | no returned reference has number "0", and there are no more references than body rows |
| Utils.BodyRows | src/utils.py:71 | the first `tr` (the header) is dropped, and an empty row list stays empty |
| Utils.PepList | src/utils.py:67-90 | a failed fetch of the index propagates its exception; a missing `index-by-category` section raises `ParserFindTagException` for it; no returned reference has number "0" |
| Utils.PepListKept | src/utils.py:69-90 | once the `index-by-category` section is found and no row raises, the result is exactly the references of the kept body rows (header dropped, empty and "0" rows skipped), one per kept row, in row order |
| Utils.ParsePepList | src/utils.py:67-90 | the loop that appends to `pep_links` returns exactly `PepList`, and no returned reference has number "0" |
| Constants.ExpectedStatusKeys | src/constants.py:28-37 | the table's keys are exactly 'A', 'D', 'F', 'P', 'R', 'S', 'W' and '' |
| Constants.ExpectedStatusNonEmpty | src/constants.py:28-37 | every expected-status tuple is non-empty |
| Constants.ExpectedStatusEntries | src/constants.py:29-36 | 'D' expects exactly "Deferred" (so not "Active"), 'A' expects "Active" and "Accepted", '' expects "Draft" and "Active" |
| Utils.ExpectedFor | src/utils.py:103 | the expected statuses are the table's entry for the letter, or the default `("Unknown",)` when the letter is missing; never empty |
| Utils.Visit | src/utils.py:103-118 | one loop step keeps the counter well formed: no key twice, keys and counts agree, and every count positive |
| Utils.Reconcile | src/utils.py:99-118 | the loop over the PEPs, stopping at the first escaping exception, leaves a well-formed counter whose every count is positive |
| Utils.Tally.Set | src/utils.py:112 | assigning a counter key sets that count and no other; a new key goes last and an existing key keeps its position |
| Utils.SumAfterSet | src/utils.py:133 | after one count is assigned, `sum(values())` changes by exactly the difference |
| Utils.VisitEffect | src/utils.py:103-118 | a non-`RuntimeError` exception ends the loop with that exception; a `RuntimeError` only appends its message; an empty or missing status changes nothing; a non-empty status is counted exactly once more and recorded as a mismatch iff it is outside the expected set |
| Utils.DeferredButActive | src/utils.py:103-118 | a 'D' PEP showing "Active" is counted and flagged against ("Deferred",); an unknown letter flags "Final" against ("Unknown",) |
| Utils.ReconcileFails | src/utils.py:105-109 | the loop fails exactly when some PEP's reading raises something other than `RuntimeError`, and with the first such exception |
| Utils.ReconcileCounts | src/utils.py:111-112 | every status is counted once per PEP that shows it, and the counts sum to the number of PEPs with a non-empty status |
| Utils.ReconcileLog | src/utils.py:107-118 | the logged mismatches are exactly the PEPs whose status is outside their expected set, and the errors are exactly the `RuntimeError` messages, both in PEP order |
| Utils.Summarize | src/utils.py:133 | assigning "Total" after the loop keeps the counter well formed |
| Utils.SummaryKeys | src/utils.py:111-133 | the final counter has a key exactly for "Total" and for each status some PEP showed |
| Utils.SummarizeTotal | src/utils.py:133 | "Total" equals the number of PEPs with a non-empty status; every other status keeps its count; "Total" is listed last unless a PEP itself showed "Total" |
| Utils.CheckPep | src/utils.py:103-118 | the loop body for one PEP computes exactly one `Visit` step of the reconciliation |
| Utils.ProcessPepData | src/utils.py:93-134 | the loop over the PEPs, followed by the "Total" assignment, returns exactly `PepSummary` |
| PyStr.ReplaceNewlines | src/main.py:53 | each "\n" becomes " ", every other character stays in place, and the length is unchanged |
| Scraper.MapAllRows | src/main.py:40-54 | a loop that appends one row per item succeeds iff every item does, and then its rows are the items' rows, in order |
| Scraper.MapAllFirstFailure | src/main.py:40-54 | when it fails, it fails with the exception of the first item that raises |
| Scraper.ItemHref | src/main.py:41-42 | the href of the item's first link; a missing link or `href` raises |
| Scraper.ArticleRow | src/main.py:44-54 | a failed fetch propagates; a missing `h1` (checked first) raises `ParserFindTagException` for `h1`, and then a missing `dl` raises it for `dl`; otherwise the row is (link, h1 text, dl text with each newline replaced by a space), and its third field has no newline |
| Scraper.ArticleFor | src/main.py:41-54 | a missing href raises; otherwise the result is exactly `ArticleRow` of the page fetched at the href joined onto the "What's New" URL, so the row is that link, the `h1` text and the one-line `dl` text |
| Scraper.ReadArticle | src/main.py:41-54 | the loop body for one toctree item computes exactly `ArticleFor` |
| Scraper.ArticleTable | src/main.py:39-56 | the loop that appends one article row per item returns exactly the header followed by `ArticleFor` of each item, failing with the first item's exception |
| Scraper.TocItems | src/main.py:29-37 | a missing `what-s-new-in-python` section raises `ParserFindTagException` for it; then a missing `toctree-wrapper` div raises it for the div; otherwise every item is a matching `li.toctree-l1`, and there are no more items than the wrapper's elements |
| Scraper.TocItemsAll | src/main.py:29-37 | once both lookups succeed, the items are exactly `find_all('li', class 'toctree-l1')` of the wrapper, i.e. every such element, one per position, in document order |
| Scraper.WhatsNewIndexFatal | src/main.py:23-37 | a failed fetch of the index, or a missing section or wrapper, makes `whats_new` raise that exception before any article is read |
| Scraper.WhatsNewHeaded | src/main.py:29-56 | once the toctree items are found, `whats_new` returns exactly the header followed by the article loop over those items |
| Scraper.ArticlesFail | src/main.py:39-56 | the article loop over any items fails exactly when some item's article fails, with the first such exception |
| Scraper.WhatsNewFails | src/main.py:40-54 | once the toctree items are found, the routine fails exactly when some item's article fails, with the first such exception |
| Scraper.WhatsNewRows | src/main.py:39-56 | otherwise the result is the header followed by exactly one row per toctree item, in order |
| Scraper.WhatsNew | src/main.py:21-56 | `whats_new` (the two `find_tag` lookups, `find_all` of the toctree items, then the article loop) returns exactly `WhatsNewTable` |
| PyStr.ContainsAt | src/main.py:69 | `'All versions' in ul.text` holds exactly when the phrase occurs at some offset of the text |
| Scraper.VersionLinksSearch | src/main.py:65-75 | a missing sidebar raises; `ParsingError` is raised exactly when no `ul` mentions "All versions"; otherwise the links are those of the first `ul` that does |
| Scraper.FindVersionLinks | src/main.py:65-75 | the for/else search with `break` returns exactly `VersionLinks` |
| VersionPattern.Search | src/main.py:82 | `re.search` finds nothing exactly when the pattern matches at no offset; a match has a version `\d\.\d+` and a one-line status |
| VersionPattern.VersionSplit | src/main.py:82-85 | no match keeps the raw text with status ""; a match yields a version `\d\.\d+` and a one-line status |
| VersionPattern.MatchAtSound | src/main.py:78-82 | what the engine finds at an offset is a match of the pattern there |
| VersionPattern.MatchAtGreedy | src/main.py:78-82 | whenever the pattern matches at an offset, the engine finds a match there with the same version and the longest status |
| VersionPattern.VersionSplitLeftmost | src/main.py:78-83 | when the pattern matches anywhere, the split is the groups of a match at the leftmost matching offset with the longest status there |
| VersionPattern.VersionSplitNoMatch | src/main.py:83-85 | when the pattern matches nowhere, the split is the raw text and "" |
| VersionPattern.VersionSplitRender | src/main.py:78-83 | round trip: "Python v (s)" with a version `\d\.\d+` and a one-line status `s` splits back into exactly `v` and `s` |
| VersionPattern.VersionSplitNestedParens | src/main.py:78-83 | the status runs greedily to the last ")": "Python 3.9 (security (EOL))" yields "3.9" and "security (EOL)" |
| VersionPattern.VersionSplitStable | src/main.py:78-83 | "Python 3.11 (stable)" yields "3.11" and "stable" |
| VersionPattern.VersionSplitAllVersions | src/main.py:83-85 | "All versions" does not match and is kept whole with status "" |
| Scraper.VersionRow | src/main.py:80-87 | a link without `href` raises; otherwise the row is (href, version, status) of the link's text |
| Scraper.ReadVersionLink | src/main.py:81-87 | the loop body for one link computes exactly `VersionRow` |
| Scraper.VersionTable | src/main.py:77-89 | the loop that appends one row per link returns exactly the header followed by `VersionRow` of each link, failing at the first link without `href` |
| Scraper.LatestVersionsFails | src/main.py:80-87 | once the links are found, the routine fails exactly when some link lacks its `href` |
| Scraper.LatestVersionsRows | src/main.py:77-89 | otherwise the result is the header followed by exactly one (href, version, status) row per link, in link order |
| Scraper.LatestVersions | src/main.py:59-89 | `latest_versions` returns exactly `LatestVersionsTable` |
| Scraper.TallyRows | src/main.py:128 | `list(status_counts.items())`: one (status, count) row per counter key, in insertion order |
| Scraper.PepIndexFatal | src/utils.py:67-70 | a failed fetch of the index or a missing `index-by-category` section makes `pep` raise that exception before any PEP page is read |
| Scraper.PepEmptyList | src/main.py:120-123 | an index that lists no PEP yields no table |
| Scraper.PepReport | src/main.py:120-128 | an exception from the reconciliation propagates; otherwise the result is the header ("Статус", "Количество") followed by the tally rows |
| Scraper.SummaryRowsCount | src/main.py:125-128 | each row's count is the number of PEPs showing that status, or the number with any status for "Total"; "Total" is the last row unless a PEP showed "Total" |
| Scraper.TallyRowsNames | src/main.py:128 | the first cells of `items()` name each counter key once, and name nothing else |
| Scraper.SummaryRowsCover | src/main.py:125-128 | no status has two rows; every shown status and "Total" has one; and every row is "Total" or a status some PEP showed |
| Scraper.Pep | src/main.py:118-128 | `pep` returns exactly `PepTable` |
| Scraper.ParseMode | src/main.py:131-136 | a mode name is accepted exactly when it is a key of `MODE_TO_FUNCTION`, and then names that mode |
| Scraper.Run | src/main.py:131-136 | `whats-new` and `latest-versions` return their table or raise exactly the routine's exception; `download` raises its own exception or returns `None`; `pep` returns `PepTable` |
| Scraper.Launch | src/main.py:144-162 | an unknown mode is rejected; otherwise a returned table is output, `None` outputs nothing, and an exception is logged, each exactly as `Run` of that mode returned it |
| Scraper.ModeNames | src/main.py:131-136 | the accepted modes are exactly the four names; each name parses to its own mode and back |
| Scraper.LaunchOutput | src/main.py:144-162 | an unknown mode is rejected; a table is output exactly when the routine returned one; an exception is logged, never propagated; `download` never outputs a table; `whats-new` and `latest-versions` always output one unless they raise |

## Left out

- HTTP, the request cache and `get_response`: a fetched page is an input value (`Fetched`). Its failure is an arbitrary `ScrapeError`, usually `Request`.
- HTML parsing and `.text`: a page is the sequence of its elements with their text or sub-elements already extracted.
- `find` with `attrs={'class': ...}` matches by exact attribute equality. The model does not capture that a `class` value is a list of tokens and matches on any one of them.
- `urljoin` is the parameter `join`; its URL arithmetic is not modelled.
- `download`: the body of the routine (archive link lookup, binary download, file write) is not modelled. Its outcome (nothing, or an exception) is a field of `Site`.
- `save_to_csv`, `control_output` and the output formats are file and console output, so they are not modelled. The model stops at the table handed to the output stage.
- The logging of errors and mismatches, the `tqdm` progress bars, and `configure_logging` are side effects only. The mismatches and error messages are kept in the state the lemmas speak about.
- `configure_argument_parser` beyond the choice of mode (`--clear-cache`, `--output`) is configuration, and is not modelled.
- VersionPattern.IsDigit: `\d` in a Python 3 `str` pattern also matches non-ASCII decimal digits. The model accepts only '0'–'9'.
- Exceptions raised inside bs4 or `re` on malformed input are not modelled.

The exceptions that `tag['href']` raises, `TypeError` and `KeyError`, are both modelled as `MissingHref`.
