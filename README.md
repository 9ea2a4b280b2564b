# A verified model of the directory scraper's worker

`worker/worker.js` walks a paginated directory site page by page, collects a
`{ name, phone, address }` record for every listing it can read, and writes the records out
as CSV. This project models the deterministic part of that worker in Dafny:

- the CSV serialiser `convertToCSV` (module `Csv`, file `csv.dfy`);
- the page-count detector `getTotalPages` and the label search that clicks through to the
  next page (module `Pager`, file `pager.dfy`);
- the per-page extractor `scrapeCurrentPage`, which appends to the shared `results` array
  in place, and the traversal loop of `scrape` (module `Scraper`, file `scraper.dfy`).

The browser is replaced by what it shows:

- a `Label` of the pager is its text (None when reading it throws) and whether finding and
  clicking its anchor succeeds;
- a `Listing` is the text of its name, phone and address elements (None when a read throws);
- a `PageView` is a page's listing containers (None when finding them throws) and its pager.

`Scrape` is given one `PageView` per number of successful page changes. Record values are
strings or None, standing for JavaScript's null and undefined.

The serialiser is a set of functions. Its partner is a reader (`ReadCsv`) that accepts the
all-quoted subset of the quoting in RFC 4180, section 2, rules 5 to 7: every cell in double
quotes, a quote inside a cell written twice, unquoted cells refused. It reads the header line
unquoted, as the serialiser writes it. The round-trip lemmas are stated against that reader.

The code's loops are methods whose loop invariants tie them to specification functions:

- `GetTotalPages` to `TotalPages`;
- `GoToPage` to `Navigates` and `MatchingBefore`;
- `ResultSet.ScrapeCurrentPage` to `Extracted`;
- `Scrape` to `Run`.

Lemmas state what those functions promise. `Scenarios` (file `scenarios.dfy`) calls `Scrape`
on concrete sets of pages and derives the number of pages scraped, the records kept and the
number of CSV lines from the contracts alone.

The label search follows the code rather than a one-attempt reading of it. A matching label
whose click throws does not end the search: later labels with the same text are still tried,
and the search stops at the first click that succeeds. When finding the listing containers of
a page throws, the exception leaves `scrapeCurrentPage`. It ends the whole run in the outer
`catch` of `scrape`, and no CSV text is produced. A lookup that finds no containers does not
throw: that page contributes no records and the run goes on.

## Model

| member | source | states |
|---|---|---|
| Csv.Keys | worker/worker.js:19 | Definition of `Object.keys`: the field names in insertion order. Properties in `ConvertToCsvRoundTrip`. |
| Csv.Values | worker/worker.js:21 | Definition of `Object.values`: the field values in the same order. Properties in `ConvertToCsvRoundTrip`. |
| Csv.Join | worker/worker.js:19-30 | Definition of `Array.join`: the parts with one separator between neighbours. Properties in `SplitOnJoin` and `ConvertToCsvEmpty`. |
| Csv.Escape | worker/worker.js:25 | Definition of `replace(/"/g, '""')`. Properties in `UnescapeEscape` and `EscapeKeeps`. |
| Csv.Quote | worker/worker.js:22-26 | Definition: each value as a quoted cell. Properties in `Cell` and `ReadCellsOfRow`. |
| Csv.Header | worker/worker.js:19 | Definition: the first record's field names joined by commas, unquoted. Properties in `ConvertToCsvRoundTrip` and `ConvertToCsvLines`. |
| Csv.Row | worker/worker.js:20-28 | Definition: a record's quoted values joined by commas. Properties in `ReadCellsOfRow`. |
| Csv.Lines | worker/worker.js:20-28 | Definition: one row per record, in order. Properties in `ReadRowsOfLines` and `ConvertToCsvLines`. |
| Csv.ConvertToCsv | worker/worker.js:16-31 | Definition of `convertToCSV`: the empty string for no records, otherwise the header and one line per record joined by newlines. Properties in `ConvertToCsvEmpty`, `ConvertToCsvRoundTrip` and `ConvertToCsvLines`. |
| Csv.Cell | worker/worker.js:22-26 | A cell starts and ends with a double quote. Removing those quotes and collapsing the doubled quotes gives back `String(v ?? '')`: null and undefined come back as the empty string. |
| Csv.UnescapeEscape | worker/worker.js:25 | Doubling every quote is undone by collapsing every doubled quote, for every string. |
| Csv.EscapeKeeps | worker/worker.js:25 | Escaping neither adds nor drops any character other than the double quote. |
| Csv.ConvertToCsvEmpty | worker/worker.js:17 | The output is the empty string if and only if the array is empty. |
| Csv.SplitOnJoin | worker/worker.js:19 | Joining parts that do not contain the separator can be undone by splitting on it: the header's field names come back. |
| Csv.ReadQuotedEscape | worker/worker.js:25 | An escaped value followed by the closing quote reads back as the value, and the reader stops right after that quote. |
| Csv.ReadCellsOfRow | worker/worker.js:20-28 | A line of quoted cells joined by commas reads back as each value's text, in order. |
| Csv.ReadRowsOfLines | worker/worker.js:20-30 | Record lines joined by newlines read back as one row per record, in order. |
| Csv.ConvertToCsvRoundTrip | worker/worker.js:16-31 | Reading the output gives the first record's field names as the header and, for each record in order, its values as strings. The empty array gives the empty table. This holds whenever every record has a field and the header's names hold no comma or newline. |
| Csv.ConvertToCsvLines | worker/worker.js:19-30 | When no name or value holds a newline, the output splits into exactly the header line followed by one line per record, in input order: one line more than there are records. |
| Pager.IsSpace | worker/worker.js:69 | Definition: the white space and line terminators that `trim` removes. Properties in `TrimStartStrips` and `TrimEndStrips`. |
| Pager.TrimStart | worker/worker.js:69 | Definition: strips leading white space. Properties in `TrimStartStrips`. |
| Pager.TrimEnd | worker/worker.js:69 | Definition: strips trailing white space. Properties in `TrimEndStrips`. |
| Pager.Trim | worker/worker.js:69 | Definition of `trim`. Properties in `TrimStartStrips` and `TrimEndStrips`. |
| Pager.IsDigits | worker/worker.js:71 | Definition of `/^\d+$/`: non-empty and all ASCII digits. Properties in `NatToStringRoundTrip` and `DecimalValueRoundTrip`. |
| Pager.DecimalValue | worker/worker.js:72 | Definition of `parseInt(txt, 10)` on a digit string. Properties in `NatToStringRoundTrip` and `DecimalValueRoundTrip`. |
| Pager.NatToString | worker/worker.js:113 | Definition of `String(page + 1)`. Properties in `NatToStringRoundTrip`. |
| Pager.LabelNumber | worker/worker.js:68-77 | Definition: a label's trimmed text read as a number when it can be read and is all digits. Properties in `ClickedLabelShowsPage`. |
| Pager.MaxLabel | worker/worker.js:66-78 | Definition: the left fold of the maximum over the labels' numbers. Properties in `MaxLabelIsMaximum` and `GetTotalPages`. |
| Pager.TotalPages | worker/worker.js:61-91 | Definition of `getTotalPages`. Properties in `TotalPagesIsMaximum`, `TotalPagesFallback` and `GetTotalPages`. |
| Pager.Matches | worker/worker.js:126-129 | Definition: a label whose text can be read and trims to the target. Properties in `MatchingBeforeExactly` and `ClickedLabelShowsPage`. |
| Pager.Clicks | worker/worker.js:129-138 | Definition: a matching label whose anchor is found and clicked without error. Properties in `GoToPage`. |
| Pager.Navigates | worker/worker.js:118-151 | Definition: the pager is there and one of its labels clicks. Properties in `GoToPage` and `NavigatesWithinPageCount`. |
| Pager.MatchingBefore | worker/worker.js:124-129 | Definition: the matching positions below `k`, in order. Properties in `MatchingBeforeExactly`. |
| Pager.TriedInOrder | worker/worker.js:124-148 | Definition of the clicks the search tries. Properties in `GoToPage`. |
| Pager.TrimStartStrips | worker/worker.js:69 | Trimming the start gives a suffix of the text. Everything cut is white space, and the result does not start with white space. |
| Pager.TrimEndStrips | worker/worker.js:69 | Trimming the end gives a prefix of the text. Everything cut is white space, and the result does not end with white space. |
| Pager.NatToStringRoundTrip | worker/worker.js:113 | `String(n)` is a digit string with no leading zero (unless n is 0), and `parseInt` reads it back as `n`. |
| Pager.DecimalValueRoundTrip | worker/worker.js:71-72 | A digit string with no leading zero is `String` of its parsed value. |
| Pager.MaxLabelIsMaximum | worker/worker.js:66-78 | The folded maximum is at least every label's page number, and it is 0 or the page number of some label. |
| Pager.TotalPagesIsMaximum | worker/worker.js:61-91 | The page count is at least 1, and it is 1 when the pager is missing. It is no smaller than any label's page number, and it is 1 or the page number of some label. |
| Pager.TotalPagesFallback | worker/worker.js:80-83 | When no label shows a positive number (only `"0"` labels or none at all), the page count is 1. |
| Pager.GetTotalPages | worker/worker.js:61-91 | The loop returns exactly `TotalPages` of the pager, which is at least 1. A missing pager and unreadable labels degrade to the fallback and never fail. |
| Pager.MatchingBeforeExactly | worker/worker.js:124-129 | The positions collected are exactly the labels below `k` whose trimmed text equals the target, in increasing order. |
| Pager.GoToPage | worker/worker.js:118-151 | Returns `clicked` exactly when the pager is there and some label whose text can be read trims to the target and clicks. The clicks tried are every matching label, in order, up to the first successful click, and no label after it is examined. A missing pager tries nothing. |
| Pager.ClickedLabelShowsPage | worker/worker.js:126-132 | A label the search matches for `String(n)` shows page number `n`, as the page-count detector reads it. |
| Pager.NavigatesWithinPageCount | worker/worker.js:112-132 | Navigation to page `n` can succeed only on a pager whose own page count is at least `n`. |
| Scraper.Contact | worker/worker.js:51 | Definition: the record `{ name, phone, address }`. Properties in `ExtractedContacts`. |
| Scraper.Complete | worker/worker.js:43-49 | Definition: all three reads of a listing succeed. Properties in `ExtractedCount` and `ExtractedMembers`. |
| Scraper.Emitted | worker/worker.js:42-54 | Definition: a listing's record when it is complete, none otherwise. Properties in `SkippedListing` and `ExtractedMembers`. |
| Scraper.Extracted | worker/worker.js:41-55 | Definition: the records of a page's listings, in order. Properties in `ExtractedAppend`, `SkippedListing`, `ExtractedCount`, `ExtractedMembers` and `ScrapeCurrentPage`. |
| Scraper.FoundRecords | worker/worker.js:37-55 | Definition: none when finding the containers threw, otherwise `Extracted`. Properties in `ScrapeCurrentPage`. |
| Scraper.PageRecords | worker/worker.js:37-55 | Definition: `FoundRecords` of a page view's listings. Properties in `RunFromResults`. |
| Scraper.Listed | worker/worker.js:37 | Definition: finding page `p`'s listing containers does not throw. Properties in `RunEnds`. |
| Scraper.MovesOn | worker/worker.js:112-158 | Definition: on page `p` the click to page `p + 1` succeeds. Properties in `RunEnds` and `RunStopsAt`. |
| Scraper.Collected | worker/worker.js:105-109 | Definition: the records of the first `k` pages, in page order. Properties in `CollectedPrefix`, `CollectedContacts` and `RunFromResults`. |
| Scraper.ResultSet.constructor | worker/worker.js:94 | The result set starts empty. |
| Scraper.ResultSet.ScrapeCurrentPage | worker/worker.js:36-56 | Throws exactly when finding the listing containers throws. Otherwise only appends: the old records stay as a prefix, followed by the records of the complete listings in listing order. |
| Scraper.ExtractedAppend | worker/worker.js:41-55 | The records of two runs of listings are the records of each, concatenated. |
| Scraper.SkippedListing | worker/worker.js:52-54 | A listing with a failed read contributes nothing: removing it changes no record. |
| Scraper.ExtractedCount | worker/worker.js:41-55 | A page yields at most one record per listing. It yields exactly one per listing if and only if every listing is complete. |
| Scraper.ExtractedMembers | worker/worker.js:41-55 | A record is extracted if and only if it is the contact of some complete listing. |
| Scraper.ExtractedContacts | worker/worker.js:51 | Every extracted record has the fields `name`, `phone`, `address`, in that order. |
| Scraper.CollectedContacts | worker/worker.js:105-109 | Every record collected over several pages has the fields `name`, `phone`, `address`. |
| Scraper.CollectedPrefix | worker/worker.js:105-109 | The records of fewer pages are a prefix of the records of more pages: results only grow at the end. |
| Scraper.RunFrom | worker/worker.js:105-160 | Definition of the traversal from one page on. Properties in `RunFromStops`, `RunFromTargets` and `RunFromResults`. |
| Scraper.Run | worker/worker.js:102-160 | Definition of the whole traversal. Properties in `RunEnds`, `RunStopsAt` and `Scrape`. |
| Scraper.RunFromStops | worker/worker.js:105-160 | From any page reached normally, the run ends on a page no later than the page count, and every page before it was left normally. It threw exactly when finding the last page's listing containers threw. Otherwise it ended on the last page or on a failed click. |
| Scraper.RunFromTargets | worker/worker.js:111-118 | The run tries to move to pages 2, 3, ... in turn. There is one attempt per page left normally, plus one when the run ends on a failed click. |
| Scraper.RunFromResults | worker/worker.js:105-109 | The run holds the records of the pages it scraped, in page order. |
| Scraper.RunEnds | worker/worker.js:102-160 | The run scrapes between 1 and the page count many pages and leaves every page before the last normally. It stops by exception exactly when finding the last page's listing containers throws; otherwise it stops on the last page or on a failed click. The targets are 2, 3, ... in turn, with none when there is a single page. The results are the pages' records in page order. |
| Scraper.RunStopsAt | worker/worker.js:105-158 | Conversely, the run stops exactly on the first page that throws, fails its click to the next page, or is the last. |
| Scraper.Scrape | worker/worker.js:102-168 | The loop over the result set and the label search produces exactly the run `Run(views)`. It produces CSV text exactly when no exception ended the run, and that text is `convertToCSV` of the results. |
| Scraper.ScrapedCsvRoundTrip | worker/worker.js:162-163 | The CSV text of the records of any number of pages reads back with the header `name,phone,address` (when there is a record) and one row per record holding its name, phone and address. |

## Left out

- Building the Selenium driver, the Chrome options, `driver.get`, `driver.quit` and `main`: these are foreign browser and process calls. The initial page load is taken to succeed; `Scrape` starts from the first page's view.
- Scraper.Scrape: requires a view for every page up to the page count. The browser's page sequence is an input here, and a click is taken to change the page exactly when it does not throw. A click that navigates and then throws, or one that succeeds without a page change, is not modelled.
- The first page's pager is read twice in the code: once for the page count and again, after page 1 is scraped, for the click to page 2. The model reads both from `views[0].pager`, so both reads see the same labels and the same click outcomes. A pager that changes between the two reads is not modelled.
- `sleep` and its fixed waits: timing only.
- `fs.writeFileSync` and `path.resolve`: file I/O. The model produces the CSV text that would be written.
- The logger calls and worker/utils.js: logging and a clock read. worker/utils.js is not part of this model.
- worker/make_children.py is not part of this model: it is a separate pandas script over the CSV file.
- Pager.DecimalValue: `parseInt` is exact on unbounded naturals here. JavaScript rounds values above 2^53, which no real pager label reaches.
- Csv.Cell: `String(v)` is modelled for strings, null and undefined only. Numbers and objects never occur in the records the scraper builds.
- Csv.Keys: `Object.keys` moves integer-like keys to the front and has no duplicate keys. Records here are field sequences in insertion order, which is exact for the records the scraper builds.
- The `async`/`await` sequencing is modelled as plain sequential execution.
