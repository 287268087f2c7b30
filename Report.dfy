/**
 * The pages report (`printReport` in src/report.ts): the crawl's page-to-count
 * map, ranked by descending count, one line per page, and a summary line with
 * the page total and the link total.
 *
 * A JavaScript `Map` iterates its entries in insertion order, so the map is a
 * sequence of (page, count) pairs; `DistinctKeys` is the `Map` invariant.
 */
module Report {
  import opened Decimal
  import opened Text

  type Entry = (string, nat)

  type PagesMap = seq<Entry>

  predicate DistinctKeys(pages: PagesMap) {
    forall i, j :: 0 <= i < j < |pages| ==> pages[i].0 != pages[j].0
  }

  function Keys(pages: PagesMap): set<string> {
    set i | 0 <= i < |pages| :: pages[i].0
  }

  /** Counts never increase from one entry to the next. */
  predicate NonIncreasing(s: PagesMap) {
    forall i, j :: 0 <= i < j < |s| ==> s[i].1 >= s[j].1
  }

  // ---------------------------------------------------------------------
  // Sorting: a copy of the entries, ranked by descending count
  // ---------------------------------------------------------------------

  /** Putting an entry with at least the first count in front keeps a sequence ranked. */
  lemma ConsNonIncreasing(x: Entry, t: PagesMap)
    requires NonIncreasing(t)
    requires t == [] || x.1 >= t[0].1
    ensures NonIncreasing([x] + t)
  {
  }

  /** Puts `e` into a ranked sequence, before the first entry with a smaller count. */
  function Insert(e: Entry, s: PagesMap): (r: PagesMap)
    requires NonIncreasing(s)
    ensures NonIncreasing(r)
    ensures multiset(r) == multiset(s) + multiset{e}
    ensures |r| == |s| + 1
    ensures r[0] == e || (|s| > 0 && r[0] == s[0])
    decreases |s|
  {
    if s == [] then [e]
    else if e.1 >= s[0].1 then
      ConsNonIncreasing(e, s);
      [e] + s
    else
      var t := Insert(e, s[1..]);
      assert s == [s[0]] + s[1..];
      ConsNonIncreasing(s[0], t);
      [s[0]] + t
  }

  /**
   * The sorted copy of the entries: a permutation of them, ranked by
   * descending count. Ties keep their map order, as the stable
   * `Array.prototype.sort` does, but nothing relies on that.
   */
  function SortByCount(pages: PagesMap): (sorted: PagesMap)
    ensures NonIncreasing(sorted)
    ensures multiset(sorted) == multiset(pages)
    ensures |sorted| == |pages|
    decreases |pages|
  {
    if pages == [] then []
    else
      assert pages == [pages[0]] + pages[1..];
      Insert(pages[0], SortByCount(pages[1..]))
  }

  /**
   * The link total: the sum of the counts. Every count is at most the total,
   * and the total is 0 exactly when every count is.
   */
  function TotalLinks(s: PagesMap): (total: nat)
    ensures forall i :: 0 <= i < |s| ==> s[i].1 <= total
    ensures total == 0 <==> forall i :: 0 <= i < |s| ==> s[i].1 == 0
    decreases |s|
  {
    if s == [] then 0 else s[0].1 + TotalLinks(s[1..])
  }

  lemma {:induction false} TotalLinksRemove(s: PagesMap, i: nat)
    requires i < |s|
    ensures TotalLinks(s) == s[i].1 + TotalLinks(s[..i] + s[i + 1..])
    decreases i
  {
    if i > 0 {
      TotalLinksRemove(s[1..], i - 1);
      assert s[1..][..i - 1] + s[1..][i..] == (s[..i] + s[i + 1..])[1..];
    } else {
      assert s[..i] + s[i + 1..] == s[1..];
    }
  }

  /** The link total does not depend on the order of the entries. */
  lemma {:induction false} TotalLinksPermutation(a: PagesMap, b: PagesMap)
    requires multiset(a) == multiset(b)
    ensures TotalLinks(a) == TotalLinks(b)
    decreases |a|
  {
    if a == [] {
      assert |b| == |multiset(b)| == 0;
    } else {
      var e := a[0];
      assert a == [e] + a[1..];
      assert e in multiset(b);
      var i :| 0 <= i < |b| && b[i] == e;
      var rest := b[..i] + b[i + 1..];
      assert b == b[..i] + [e] + b[i + 1..];
      assert multiset(rest) == multiset(b) - multiset{e};
      TotalLinksRemove(b, i);
      TotalLinksPermutation(a[1..], rest);
    }
  }

  /** Sorting keeps the keys distinct: every page still appears exactly once. */
  lemma SortKeepsDistinctKeys(pages: PagesMap)
    requires DistinctKeys(pages)
    ensures DistinctKeys(SortByCount(pages))
  {
    var sorted := SortByCount(pages);
    forall i, j | 0 <= i < j < |sorted|
      ensures sorted[i].0 != sorted[j].0
    {
      if sorted[i].0 == sorted[j].0 {
        assert sorted[i] in multiset(pages) && sorted[j] in multiset(pages);
        var p :| 0 <= p < |pages| && pages[p] == sorted[i];
        var q :| 0 <= q < |pages| && pages[q] == sorted[j];
        assert p == q;
        TwiceInMultiset(sorted, i, j);
        MultiplicityOne(pages, p);
        assert false;
      }
    }
  }

  lemma TwiceInMultiset(s: PagesMap, i: nat, j: nat)
    requires i < j < |s| && s[i] == s[j]
    ensures multiset(s)[s[i]] >= 2
  {
    assert s == s[..j] + s[j..];
    assert s[..j][i] == s[i];
    assert s[j..][0] == s[i];
  }

  /** With distinct keys each entry occurs once in the map. */
  lemma {:induction false} MultiplicityOne(pages: PagesMap, p: nat)
    requires DistinctKeys(pages) && p < |pages|
    ensures multiset(pages)[pages[p]] == 1
    decreases |pages|
  {
    var e := pages[p];
    assert pages == [pages[0]] + pages[1..];
    if p == 0 {
      assert e !in pages[1..];
      assert multiset(pages[1..])[e] == 0;
    } else {
      MultiplicityOne(pages[1..], p - 1);
      assert pages[0] != e;
    }
  }

  /** The page total: with distinct keys, the number of entries is the number of pages. */
  lemma {:induction false} DistinctPageCount(pages: PagesMap)
    requires DistinctKeys(pages)
    ensures |Keys(pages)| == |pages|
    decreases |pages|
  {
    if pages != [] {
      DistinctPageCount(pages[1..]);
      assert Keys(pages) == {pages[0].0} + Keys(pages[1..]) by {
        forall k | k in Keys(pages) ensures k in {pages[0].0} + Keys(pages[1..]) {
          var i :| 0 <= i < |pages| && pages[i].0 == k;
          if i > 0 { assert pages[1..][i - 1].0 == k; }
        }
        forall k | k in Keys(pages[1..]) ensures k in Keys(pages) {
          var i :| 0 <= i < |pages[1..]| && pages[1..][i].0 == k;
          assert pages[i + 1].0 == k;
        }
      }
      assert pages[0].0 !in Keys(pages[1..]);
    }
  }

  // ---------------------------------------------------------------------
  // Lines of the report
  // ---------------------------------------------------------------------

  const Header: string := "Starting pages report..."

  const SummaryPrefix: string := "Pages report completed. Crawled "

  /**
   * The line for one page: "Found", the count, "internal link" (with "s"
   * unless the count is 1), "to" and the page in double quotes.
   */
  function PageLine(page: string, count: nat): (line: string)
    ensures "Found " <= line
    ensures |line| > |page| + 1 && line[|line| - |page| - 2..] == "\"" + page + "\""
  {
    "Found " + ToDecimal(count) + Phrase(" internal link", " to \"", count) + page + "\""
  }

  /**
   * The closing line: the page total and the link total, each followed by its
   * word ("page", "internal link"), with "s" unless that total is 1.
   */
  function Summary(totalPages: nat, totalLinks: nat): (line: string)
    ensures SummaryPrefix <= line
    ensures |line| > |SummaryPrefix| && line[|line| - 1] == '.'
  {
    SummaryPrefix + ToDecimal(totalPages) + Phrase(" page", " and found ", totalPages)
      + ToDecimal(totalLinks) + Phrase(" internal link", ".", totalLinks)
  }

  /** One page line per entry, in the same order. */
  function PageLines(s: PagesMap): (lines: seq<string>)
    ensures |lines| == |s|
  {
    seq(|s|, i requires 0 <= i < |s| => PageLine(s[i].0, s[i].1))
  }

  /** The report's lines: header, blank, the ranked page lines, blank, summary. */
  function ReportLines(pages: PagesMap): (lines: seq<string>)
    ensures |lines| == |pages| + 4
    ensures lines[0] == Header && lines[1] == "" && lines[|pages| + 2] == ""
    ensures lines[|pages| + 3] == Summary(|pages|, TotalLinks(pages))
  {
    [Header, ""] + PageLines(SortByCount(pages)) + ["", Summary(|pages|, TotalLinks(pages))]
  }

  /** The report: the lines are appended one group at a time, then joined with "\n". */
  method PrintReport(pages: PagesMap) returns (report: string)
    ensures report == Join(ReportLines(pages), '\n')
    ensures NoNewlines(pages) ==> Split(report, '\n') == ReportLines(pages)
  {
    var lines: seq<string> := [];
    var sortedPages := SortByCount(pages);
    lines := lines + [Header];
    lines := lines + [""];
    assert lines == [Header, ""];
    lines := lines + PageLines(sortedPages);
    var totalPages := |sortedPages|;
    var totalLinks := TotalLinks(sortedPages);
    lines := lines + [""];
    lines := lines + [Summary(totalPages, totalLinks)];
    PushedLines(pages, sortedPages, lines);
    report := Join(lines, '\n');
    if NoNewlines(pages) {
      ReportSplitsIntoLines(pages);
    }
  }

  /** The lines pushed from the sorted copy, with its own totals, are the report's lines. */
  lemma PushedLines(pages: PagesMap, sortedPages: PagesMap, lines: seq<string>)
    requires sortedPages == SortByCount(pages)
    requires lines == [Header, ""] + PageLines(sortedPages)
      + [""] + [Summary(|sortedPages|, TotalLinks(sortedPages))]
    ensures lines == ReportLines(pages)
  {
    TotalLinksPermutation(sortedPages, pages);
  }

  // ---------------------------------------------------------------------
  // Reading lines back: the fields a reader of the report recovers
  // ---------------------------------------------------------------------

  datatype PageLineFields = PageLineFields(count: nat, plural: bool, page: string)

  datatype SummaryFields = SummaryFields(pages: nat, pagesPlural: bool, links: nat, linksPlural: bool)

  /** Reads `Found N internal link(s) to "P"`. */
  function ParsePageLine(line: string): Option<PageLineFields> {
    var prefix := "Found ";
    if !(prefix <= line) then None
    else match ReadNumber(line[|prefix|..])
      case None => None
      case Some((n, rest)) =>
        match ParseLinkTarget(rest)
        case None => None
        case Some((plural, page)) => Some(PageLineFields(n, plural, page))
  }

  /** Reads the end of a page line, ` internal link(s) to "P"`. */
  function ParseLinkTarget(s: string): Option<(bool, string)> {
    match ReadPhrase(s, " internal link", " to \"")
    case None => None
    case Some((plural, tail)) =>
      if |tail| > 0 && tail[|tail| - 1] == '"' then Some((plural, tail[..|tail| - 1])) else None
  }

  /** Reads `Pages report completed. Crawled N page(s) and found M internal link(s).` */
  function ParseSummary(line: string): Option<SummaryFields> {
    var prefix := SummaryPrefix;
    if !(prefix <= line) then None
    else match ReadNumber(line[|prefix|..])
      case None => None
      case Some((p, rest)) =>
        match ReadPhrase(rest, " page", " and found ")
        case None => None
        case Some((pPlural, rest2)) =>
          match ParseLinkTotal(rest2)
          case None => None
          case Some((l, lPlural)) => Some(SummaryFields(p, pPlural, l, lPlural))
  }

  /** Reads the end of the summary, `M internal link(s).` */
  function ParseLinkTotal(s: string): Option<(nat, bool)> {
    match ReadNumber(s)
    case None => None
    case Some((l, rest)) =>
      match ReadPhrase(rest, " internal link", ".")
      case None => None
      case Some((lPlural, tail)) => if tail == "" then Some((l, lPlural)) else None
  }

  /**
   * A page line gives back its page and count, and uses the plural "links"
   * exactly when the count is not 1.
   */
  lemma PageLineRoundTrip(page: string, count: nat)
    ensures ParsePageLine(PageLine(page, count)) == Some(PageLineFields(count, count != 1, page))
  {
    var rest := Phrase(" internal link", " to \"", count) + page + "\"";
    PageLinePieces(page, count);
    PrefixRead("Found ", ToDecimal(count) + rest);
    ReadNumberOf(count, rest);
    LinkTargetRoundTrip(page, count);
  }

  /** A page line as "Found " followed by the rest, grouped from the right. */
  lemma PageLinePieces(page: string, count: nat)
    ensures PageLine(page, count)
      == "Found " + (ToDecimal(count) + (Phrase(" internal link", " to \"", count) + page + "\""))
  {
  }

  lemma LinkTargetRoundTrip(page: string, count: nat)
    ensures ParseLinkTarget(Phrase(" internal link", " to \"", count) + page + "\"") == Some((count != 1, page))
  {
    var phrase := Phrase(" internal link", " to \"", count);
    assert phrase + page + "\"" == phrase + (page + "\"");
    ReadPhraseOf(" internal link", " to \"", count, page + "\"");
    assert (page + "\"")[..|page|] == page;
  }

  /**
   * The summary gives back the page total and the link total, with "page"
   * exactly when the page total is 1 and "link" exactly when the link total is 1.
   */
  lemma SummaryRoundTrip(totalPages: nat, totalLinks: nat)
    ensures ParseSummary(Summary(totalPages, totalLinks))
      == Some(SummaryFields(totalPages, totalPages != 1, totalLinks, totalLinks != 1))
  {
    var prefix := SummaryPrefix;
    var p1 := Phrase(" page", " and found ", totalPages);
    var tail := ToDecimal(totalLinks) + Phrase(" internal link", ".", totalLinks);
    var rest := p1 + tail;
    var line := Summary(totalPages, totalLinks);
    SummaryPieces(totalPages, totalLinks);
    PrefixRead(prefix, ToDecimal(totalPages) + rest);
    ReadNumberOf(totalPages, rest);
    ReadPhraseOf(" page", " and found ", totalPages, tail);
    LinkTotalRoundTrip(totalLinks);
  }

  /** The summary as its prefix followed by the rest, grouped from the right. */
  lemma SummaryPieces(totalPages: nat, totalLinks: nat)
    ensures Summary(totalPages, totalLinks) == SummaryPrefix + (ToDecimal(totalPages)
      + (Phrase(" page", " and found ", totalPages) + (ToDecimal(totalLinks) + Phrase(" internal link", ".", totalLinks))))
  {
  }

  lemma PrefixRead(prefix: string, rest: string)
    ensures prefix <= prefix + rest && (prefix + rest)[|prefix|..] == rest
  {
  }

  lemma LinkTotalRoundTrip(totalLinks: nat)
    ensures ParseLinkTotal(ToDecimal(totalLinks) + Phrase(" internal link", ".", totalLinks))
      == Some((totalLinks, totalLinks != 1))
  {
    var p2 := Phrase(" internal link", ".", totalLinks);
    assert p2 == p2 + "";
    ReadNumberOf(totalLinks, p2);
    ReadPhraseOf(" internal link", ".", totalLinks, "");
  }

  /** Different entries give different page lines. */
  lemma PageLineInjective(a: Entry, b: Entry)
    requires PageLine(a.0, a.1) == PageLine(b.0, b.1)
    ensures a == b
  {
    PageLineRoundTrip(a.0, a.1);
    PageLineRoundTrip(b.0, b.1);
  }

  predicate NoNewlines(pages: PagesMap) {
    forall i :: 0 <= i < |pages| ==> Free(pages[i].0, '\n')
  }

  lemma DecimalFree(n: nat)
    ensures Free(ToDecimal(n), '\n')
  {
  }

  lemma PhraseFree(stem: string, suffix: string, n: nat)
    requires Free(stem, '\n') && Free(suffix, '\n')
    ensures Free(Phrase(stem, suffix, n), '\n')
  {
  }

  lemma PageLineFree(page: string, count: nat)
    requires Free(page, '\n')
    ensures Free(PageLine(page, count), '\n')
  {
    DecimalFree(count);
    PhraseFree(" internal link", " to \"", count);
  }

  lemma SummaryFree(totalPages: nat, totalLinks: nat)
    ensures Free(Summary(totalPages, totalLinks), '\n')
  {
    DecimalFree(totalPages);
    DecimalFree(totalLinks);
    PhraseFree(" page", " and found ", totalPages);
    PhraseFree(" internal link", ".", totalLinks);
    assert Free(SummaryPrefix, '\n');
  }

  /** Where entry `k` of the map went in the sorted copy. */
  lemma SortedPosition(pages: PagesMap, k: nat) returns (i: nat)
    requires k < |pages|
    ensures i < |pages| && SortByCount(pages)[i] == pages[k]
  {
    var sorted := SortByCount(pages);
    assert pages[k] in multiset(sorted);
    i :| 0 <= i < |sorted| && sorted[i] == pages[k];
  }

  /** Where entry `i` of the sorted copy came from in the map. */
  lemma SortedOrigin(pages: PagesMap, i: nat) returns (k: nat)
    requires i < |pages|
    ensures k < |pages| && pages[k] == SortByCount(pages)[i]
  {
    var sorted := SortByCount(pages);
    assert sorted[i] in multiset(pages);
    k :| 0 <= k < |pages| && pages[k] == sorted[i];
  }

  /** The report's lines, position by position. */
  lemma ReportLinesAt(pages: PagesMap)
    ensures var lines := ReportLines(pages);
      var sorted := SortByCount(pages);
      && |lines| == |pages| + 4
      && lines[0] == Header
      && lines[1] == ""
      && (forall i :: 0 <= i < |pages| ==> lines[i + 2] == PageLine(sorted[i].0, sorted[i].1))
      && lines[|pages| + 2] == ""
      && lines[|pages| + 3] == Summary(|pages|, TotalLinks(pages))
  {
  }

  /** Sorting moves entries but brings in no page name with a newline. */
  lemma SortedNoNewlines(pages: PagesMap)
    requires NoNewlines(pages)
    ensures NoNewlines(SortByCount(pages))
  {
    var sorted := SortByCount(pages);
    forall i | 0 <= i < |sorted| ensures Free(sorted[i].0, '\n') {
      var k := SortedOrigin(pages, i);
    }
  }

  /** No page line holds a newline when no page name does. */
  lemma PageLinesFree(s: PagesMap)
    requires NoNewlines(s)
    ensures forall i :: 0 <= i < |s| ==> Free(PageLines(s)[i], '\n')
  {
    forall i | 0 <= i < |s| ensures Free(PageLines(s)[i], '\n') {
      PageLineFree(s[i].0, s[i].1);
    }
  }

  /** No line of the report holds a newline when no page name does. */
  lemma ReportLinesFree(pages: PagesMap)
    requires NoNewlines(pages)
    ensures forall i :: 0 <= i < |ReportLines(pages)| ==> Free(ReportLines(pages)[i], '\n')
  {
    var sorted := SortByCount(pages);
    var n := |pages|;
    SortedNoNewlines(pages);
    PageLinesFree(sorted);
    SummaryFree(n, TotalLinks(pages));
    assert Free(Header, '\n');
    var lines := ReportLines(pages);
    assert lines == [Header, ""] + PageLines(sorted) + ["", Summary(n, TotalLinks(pages))];
    forall i | 0 <= i < |lines| ensures Free(lines[i], '\n') {
      if 2 <= i < n + 2 {
        assert lines[i] == PageLines(sorted)[i - 2];
      }
    }
  }

  /**
   * The printed report splits at "\n" back into its lines, when no page name
   * holds a newline (normalised URLs never do).
   */
  lemma ReportSplitsIntoLines(pages: PagesMap)
    requires NoNewlines(pages)
    ensures Split(Join(ReportLines(pages), '\n'), '\n') == ReportLines(pages)
  {
    ReportLinesFree(pages);
    SplitJoin(ReportLines(pages), '\n');
  }

  /**
   * The report's lines: |pages| + 4 of them, the header, a blank line, one
   * line per page in the ranked order, a blank line and the summary with the
   * page total and the link total.
   */
  lemma ReportShape(pages: PagesMap)
    ensures var lines := ReportLines(pages);
      var sorted := SortByCount(pages);
      && |lines| == |pages| + 4
      && lines[0] == Header
      && lines[1] == ""
      && (forall i :: 0 <= i < |pages| ==>
            ParsePageLine(lines[i + 2]) == Some(PageLineFields(sorted[i].1, sorted[i].1 != 1, sorted[i].0)))
      && lines[|pages| + 2] == ""
      && ParseSummary(lines[|pages| + 3])
         == Some(SummaryFields(|pages|, |pages| != 1, TotalLinks(pages), TotalLinks(pages) != 1))
  {
    var sorted := SortByCount(pages);
    ReportLinesAt(pages);
    forall i | 0 <= i < |pages|
      ensures ParsePageLine(PageLine(sorted[i].0, sorted[i].1)) == Some(PageLineFields(sorted[i].1, sorted[i].1 != 1, sorted[i].0))
    {
      PageLineRoundTrip(sorted[i].0, sorted[i].1);
    }
    SummaryRoundTrip(|pages|, TotalLinks(pages));
  }

  /** The report lists its pages from the most links to the fewest. */
  lemma ReportRanked(pages: PagesMap, i: nat, j: nat)
    requires i < j < |pages|
    ensures var lines := ReportLines(pages);
      && ParsePageLine(lines[i + 2]).Some? && ParsePageLine(lines[j + 2]).Some?
      && ParsePageLine(lines[i + 2]).value.count >= ParsePageLine(lines[j + 2]).value.count
  {
    var sorted := SortByCount(pages);
    ReportPageLine(pages, i);
    ReportPageLine(pages, j);
    PageLineRoundTrip(sorted[i].0, sorted[i].1);
    PageLineRoundTrip(sorted[j].0, sorted[j].1);
    assert sorted[i].1 >= sorted[j].1;
  }

  /** Line `k + 2` of the report is the page line of sorted entry `k`. */
  lemma ReportPageLine(pages: PagesMap, k: nat)
    requires k < |pages|
    ensures ReportLines(pages)[k + 2] == PageLine(SortByCount(pages)[k].0, SortByCount(pages)[k].1)
  {
    ReportLinesAt(pages);
  }

  /** Every entry of the map has its page line in the report. */
  lemma EveryEntryHasLine(pages: PagesMap, k: nat)
    requires k < |pages|
    ensures PageLine(pages[k].0, pages[k].1) in PageLines(SortByCount(pages))
  {
    var i := SortedPosition(pages, k);
    assert PageLines(SortByCount(pages))[i] == PageLine(pages[k].0, pages[k].1);
  }

  /** Every page line of the report belongs to an entry of the map. */
  lemma EveryLineHasEntry(pages: PagesMap, i: nat)
    requires i < |pages|
    ensures exists k :: 0 <= k < |pages| && PageLines(SortByCount(pages))[i] == PageLine(pages[k].0, pages[k].1)
  {
    var k := SortedOrigin(pages, i);
    assert PageLines(SortByCount(pages))[i] == PageLine(pages[k].0, pages[k].1);
  }

  /** No page line appears twice: each entry is reported exactly once. */
  lemma PageLinesDistinct(pages: PagesMap)
    requires DistinctKeys(pages)
    ensures var lines := PageLines(SortByCount(pages));
      forall i, j :: 0 <= i < j < |lines| ==> lines[i] != lines[j]
  {
    var sorted := SortByCount(pages);
    var lines := PageLines(sorted);
    SortKeepsDistinctKeys(pages);
    forall i, j | 0 <= i < j < |lines| ensures lines[i] != lines[j] {
      if lines[i] == lines[j] {
        PageLineInjective(sorted[i], sorted[j]);
      }
    }
  }
}
