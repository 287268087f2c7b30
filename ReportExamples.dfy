/**
 * The report for the map of src/report.test.ts, and the exact wording of
 * a singular and a plural line.
 */
module ReportExamples {
  import opened Decimal
  import opened Text
  import opened Report

  /** The map yahoo.com:10, google.com:100, bing.com:50 ranks google.com, then bing.com, then yahoo.com. */
  lemma ReportExampleRanking()
    ensures SortByCount([("yahoo.com", 10), ("google.com", 100), ("bing.com", 50)])
      == [("google.com", 100), ("bing.com", 50), ("yahoo.com", 10)]
  {
  }

  /** The summary for that map counts 3 pages and 160 links. */
  lemma ReportExampleSummary()
    ensures ReportLines([("yahoo.com", 10), ("google.com", 100), ("bing.com", 50)])[6] == Summary(3, 160)
  {
    var pages: PagesMap := [("yahoo.com", 10), ("google.com", 100), ("bing.com", 50)];
    assert TotalLinks(pages) == 160;
    ReportLinesAt(pages);
  }

  /** Counts print in decimal. */
  lemma DecimalExamples()
    ensures ToDecimal(10) == "10" && ToDecimal(100) == "100" && ToDecimal(50) == "50"
    ensures ToDecimal(160) == "160" && ToDecimal(3) == "3"
  {
  }

  /** A count of 1 takes the singular "link". */
  lemma SingularLine()
    ensures PageLine("a.com", 1) == "Found 1 internal link to \"a.com\""
  {
  }

  /** Any other count takes the plural "links". */
  lemma PluralLine()
    ensures PageLine("a.com", 2) == "Found 2 internal links to \"a.com\""
  {
  }

  /** One page and one link give the singular words in the summary. */
  lemma SingularSummary()
    ensures Summary(1, 1) == SummaryPrefix + "1" + " page and found " + "1" + " internal link."
  {
    assert ToDecimal(1) == "1";
    assert Phrase(" page", " and found ", 1) == " page and found ";
    assert Phrase(" internal link", ".", 1) == " internal link.";
  }
}
