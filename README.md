# Web crawler core: URL keys and the pages report

This project models the two pieces of logic in the web crawler's source and
proves properties about them.

- **URL normalisation** (`normalizeURL`, src/crawl.ts). The crawler identifies a
  page by a key: the URL's host followed by its path, with one trailing `/`
  removed. The scheme, the query string and the fragment are dropped. The URL
  string first goes through the platform URL parser, the basic URL parser of
  the WHATWG URL Standard. That parser is not modelled. Its result is the input
  record `Crawl.ParsedURL`, holding scheme, host, pathname, search and hash. The
  model covers the step after parsing.
- **The pages report** (`printReport`, src/report.ts). The input is the crawl's
  page-to-count map, modelled as a sequence of (page, count) pairs, because a
  JavaScript `Map` iterates in insertion order. `Report.DistinctKeys` is the
  `Map` invariant. The report copies the entries and ranks them by descending
  count. It emits a header, a blank line, one line per page with the right
  singular or plural word, another blank line, and a summary with the page
  total and the link total. The lines are joined with `"\n"`.
  `Report.PrintReport` builds the line list by appending groups in the same
  order as the source's `push` calls. The sort, the per-page `map`, the
  `reduce` sum and the `join` are functions.

Modules:

- `Decimal` (Decimal.dfy): how a count prints (`${n}`) and how to read it back.
- `Text` (Text.dfy): singular/plural phrases, readers for a number or a phrase
  at the front of a string, and `join` with its inverse `split`.
- `Crawl` (Crawl.dfy): `normalizeURL`.
- `Report` (Report.dfy): `printReport`.
- `ReportExamples` (ReportExamples.dfy): the report for the map used in
  src/report.test.ts, and the exact wording of some lines.

Each formatting function has an inverse. `ParsePageLine` and `ParseSummary`
read a line back into its count(s), plural flag(s) and page. The round-trip
lemmas prove that every line carries its data and uses the singular word
exactly when the count is 1. `Split` reads the joined report back into its
lines.

Facts about the code worth knowing:

- Normalisation is **not** idempotent. It removes only one final `/`, so
  `https://x.com/a//` gives `x.com/a/`. A key has no scheme, so it cannot be
  parsed again as it stands; with a scheme put back, `https://x.com/a/` gives
  `x.com/a` (`Crawl.NormalizeNotIdempotent`). Stripping twice equals
  stripping once exactly for paths that do not end in `//`
  (`Crawl.StripTwice`).
- The root path `/` is stripped, so `https://google.com` gives just
  `google.com` (`Crawl.NormalizeRoot`, src/crawl.test.ts:26-31).
- The comment at src/report.ts:12 says "ascending", but the comparator sorts
  in descending order of count, and src/report.test.ts:13-14 expects
  descending order. The model sorts in descending order.

## Model

| member | source | states |
|---|---|---|
| `Crawl.StripTrailingSlash` | src/crawl.ts:8 | removing a final `/` from the path: the result is a prefix of the path, exactly one character shorter when the path ends in `/`, and otherwise the path itself |
| `Crawl.NormalizeURL` | src/crawl.ts:6-9 | the key starts with the host, is a prefix of host + pathname, and is as long as host and pathname together, or one character shorter exactly when the path ends in `/` |
| `Crawl.NormalizeSplits` | src/crawl.ts:8 | the key is host + pathname when the path does not end in `/`; when it does, the key plus `/` is host + pathname |
| `Crawl.NormalizeOnlyHostAndPath` | src/crawl.test.ts:5-19 | two parsed URLs with the same host and pathname have the same key, whatever their scheme, query and fragment |
| `Crawl.NormalizeRoot` | src/crawl.test.ts:26-31 | the root path (`/`, or empty for a non-special scheme) gives exactly the host |
| `Crawl.NormalizeTrailingSlashInsensitive` | src/crawl.ts:8 | a path not ending in `/` and the same path with one `/` added give the same key |
| `Crawl.StripTwice` | src/crawl.ts:8 | stripping twice equals stripping once if and only if the path does not end in `//` |
| `Crawl.NormalizeNotIdempotent` | src/crawl.ts:8 | path `/a//` gives `x.com/a/`, while path `/a/` gives `x.com/a`, so normalising a key again, with a scheme put back, can change it |
| `Crawl.NormalizeDropsScheme` | src/crawl.test.ts:5-13 | the schemes https, http, ftp, smtp and nonsense with host google.com and a root path all give `google.com` |
| `Crawl.NormalizeDropsQuery` | src/crawl.test.ts:14-19 | `https://yahoo.com/search?q=abc` gives `yahoo.com/search` |
| `Crawl.NormalizeResolvedPath` | src/crawl.test.ts:20-25 | the resolved path `/search/` of `https://google.com/search/deeper/../` gives `google.com/search` |
| `Report.Insert` | src/report.ts:13 | inserting into a ranked sequence keeps it ranked (non-increasing counts) and adds exactly the one entry (multiset) |
| `Report.SortByCount` | src/report.ts:13 | the sorted copy is a permutation of the entries (same multiset, same length) and its counts do not increase |
| `Report.TotalLinks` | src/report.ts:23 | the link total is the sum of the counts: no count exceeds it, and it is 0 exactly when every count is 0 |
| `Report.SortKeepsDistinctKeys` | src/report.ts:13 | a map with distinct pages still has distinct pages after sorting |
| `Report.TotalLinksPermutation` | src/report.ts:23 | the link total is the same for any two orderings of the same entries, so summing the sorted copy gives the map's total |
| `Report.DistinctPageCount` | src/report.ts:22 | with distinct keys, the number of entries equals the number of distinct pages |
| `Report.PageLines` | src/report.ts:16-21 | one page line per sorted entry |
| `Report.PageLine` | src/report.ts:19 | `Found N internal link(s) to "P"`, with `links` unless N is 1: the line starts with `Found ` and ends with the page in double quotes |
| `Report.Summary` | src/report.ts:26 | `Pages report completed. Crawled N page(s) and found M internal link(s).`, each word plural unless its total is 1: the line starts with that prefix and ends with `.` |
| `Report.ReportLines` | src/report.ts:14-27 | the pushed lines: four more than the map has entries, the header first, a blank line, the page lines, a blank line, and last the summary over the number of entries and the total of the counts |
| `Report.PrintReport` | src/report.ts:10-29 | the report is the line list (header, blank, ranked page lines, blank, summary over the map's own page and link totals) joined with `"\n"`, and it splits back into exactly those lines when no page name has a newline |
| `Report.PageLineRoundTrip` | src/report.ts:19 | a page line reads back as its count, its page, and a plural flag that is set exactly when the count is not 1 |
| `Report.SummaryRoundTrip` | src/report.ts:25-27 | the summary reads back as the page total and the link total, with singular `page` exactly when the page total is 1 and singular `link` exactly when the link total is 1 |
| `Report.PageLineInjective` | src/report.ts:19 | different entries never give the same page line |
| `Report.ReportShape` | src/report.ts:14-27 | the report has four lines more than the map has entries: the header, a blank line, page line i reading back as sorted entry i, a blank line, and a summary reading back as the number of entries and the total of the counts |
| `Report.ReportRanked` | src/report.ts:13-21 | the page lines of the report read back with counts that never increase from one line to the next below it |
| `Report.ReportSplitsIntoLines` | src/report.ts:28 | when no page name has a newline, splitting the joined report at `"\n"` gives back exactly its lines |
| `Report.EveryEntryHasLine` | src/report.ts:16-21 | every entry of the map has its page line in the report |
| `Report.EveryLineHasEntry` | src/report.ts:16-21 | every page line of the report is the line of some entry of the map |
| `Report.PageLinesDistinct` | src/report.ts:13-21 | with distinct keys no page line appears twice, so each entry is reported exactly once |
| `Text.SplitJoin` | src/report.ts:28 | splitting `lines.join(sep)` at `sep` gives back the lines, for a non-empty list whose lines do not contain `sep` |
| `Text.Join` | src/report.ts:28 | `lines.join(sep)`: no lines give the empty string, otherwise the result starts with the first line and ends with the last |
| `Text.Phrase` | src/report.ts:19 | a word with `s` added unless the count is 1, then the text after it: it starts with the word, ends with that text, and is one character longer exactly when the count is not 1 |
| `Text.ReadPhraseOf` | src/report.ts:19 | a word with `s` added unless the count is 1 reads back with its plural flag equal to "count is not 1" |
| `Decimal.ToDecimal` | src/report.ts:19 | a printed count is a non-empty string of digits with no leading zero, one digit long exactly when the count is below 10 |
| `Decimal.FromToDecimal` | src/report.ts:19 | reading a printed count back gives the count |
| `Decimal.ToDecimalInjective` | src/report.ts:26 | different counts never print the same |
| `ReportExamples.ReportExampleRanking` | src/report.test.ts:7-14 | yahoo.com:10, google.com:100, bing.com:50 sort to google.com, then bing.com, then yahoo.com, so by `Report.ReportShape` their lines appear in that order |
| `ReportExamples.ReportExampleSummary` | src/report.test.ts:7-11 | the summary line for that map is the summary for 3 pages and 160 links |
| `ReportExamples.DecimalExamples` | src/report.ts:19 | 10, 100, 50, 160 and 3 print as those digit strings |
| `ReportExamples.SingularLine` | src/report.ts:19 | a count of 1 prints as `Found 1 internal link to "a.com"` |
| `ReportExamples.PluralLine` | src/report.ts:19 | a count of 2 prints as `Found 2 internal links to "a.com"` |
| `ReportExamples.SingularSummary` | src/report.ts:26 | one page and one link print as `Pages report completed. Crawled 1 page and found 1 internal link.` |

## Left out

- URL parsing (`new URL(urlString)`, src/crawl.ts:7) is a call into the platform's WHATWG URL parser. It resolves dot segments, extracts the host (with any non-default port) and fails on invalid input. The model takes its result as an input record, so the parse error is not modelled.
- Link extraction (`getURLsFromHTML`), page fetching and crawl traversal are not defined in src/crawl.ts, which exports only `normalizeURL`. They are not part of this model.
- src/CrawlError.ts holds only a table of constants, type declarations and an `Error` subclass constructor. There is no logic to model.
- src/main.ts is command-line plumbing (argument parsing and console output). It is not modelled.
- eslint.config.js and jest.config.cjs are tool configuration.
- The snapshot assertion in src/report.test.ts:12 depends on a snapshot file that is not part of this model.
- Counts are modelled as unbounded `nat`. JavaScript numbers are floating point, and the comparator subtracts them. Negative, fractional, NaN and very large counts are not modelled.
- Decimal.ToDecimal: renders every `nat` as plain digits. JavaScript switches to exponent notation from 1e21 upward; that range is not modelled.
- Report.SortByCount: ties are kept in map order (a stable insertion sort, as `Array.prototype.sort` is stable), but the contract promises only a permutation with non-increasing counts. It does not promise the order among equal counts.
- Report.TotalLinks sums from the front by recursion. The source's `reduce` is a left fold from 0. Both give the same total for natural numbers.
- Nothing in the source shown prints the report: src/main.ts only logs a start message and never calls `printReport`. The model stops at the joined string that `printReport` returns.
