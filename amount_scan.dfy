/**
 * The body of source/ScanIncentiveAmounts.py: collect the Source URLs of
 * the state-level incentive tables (keeping only electricity rows where a
 * Types column exists), then visit the URLs in sorted order and record for
 * each whether its page text holds a monetary amount.
 *
 * The file system and the network are parameters: a directory listing of
 * already-parsed CSV files, and a function from URL to the outcome of
 * fetching that page.
 */
module AmountScan {
  import opened Results
  import opened Strings
  import opened AmountPattern

  // =====================================================================
  // Gathering the URLs (lines 29-44)
  // =====================================================================

  /** One row of an incentives CSV, reduced to the Source and Types cells; None is a missing value. */
  datatype CsvRow = CsvRow(source: Option<string>, types: Option<string>)

  /** A parsed CSV: whether it has Source and Types columns, and its rows. */
  datatype Csv = Csv(hasSource: bool, hasTypes: bool, rows: seq<CsvRow>)

  /** `csv_dir.glob("*incentives.csv")` selects this file name. */
  predicate IsIncentivesCsv(name: string)
  {
    EndsWith(name, "incentives.csv")
  }

  /**
   * The row survives the Electricity filter (applied only when a Types
   * column exists; a missing Types cell counts as no match) and has a Source.
   */
  predicate Contributes(row: CsvRow, hasTypes: bool)
  {
    row.source.Some? &&
    (!hasTypes || (row.types.Some? && ContainsIgnoreCase(row.types.value, "Electricity")))
  }

  /** `df["Source"].dropna().unique()` after the filter. */
  function UrlsOf(csv: Csv): set<string>
  {
    set row | row in csv.rows && Contributes(row, csv.hasTypes) :: row.source.value
  }

  /** `u` is the Source of a contributing row of one of the first `n` selected files. */
  ghost predicate DiscoveredIn(listing: seq<(string, Csv)>, n: nat, u: string)
  {
    exists k, row :: 0 <= k < n && k < |listing| && IsIncentivesCsv(listing[k].0) &&
      row in listing[k].1.rows && Contributes(row, listing[k].1.hasTypes) && row.source.value == u
  }

  /** Some selected file lacks a Source column, so reading it with `usecols` raises. */
  predicate MissingSource(listing: seq<(string, Csv)>)
  {
    exists k :: 0 <= k < |listing| && IsIncentivesCsv(listing[k].0) && !listing[k].1.hasSource
  }

  /**
   * The loop of lines 37-44: the union of the Source values of the
   * contributing rows of every selected file, or ValueError when a selected
   * file has no Source column.
   */
  method GatherUrls(listing: seq<(string, Csv)>) returns (r: Result<set<string>, string>)
    ensures r.Err? <==> MissingSource(listing)
    ensures r.Err? ==> r.error == "ValueError"
    ensures r.Ok? ==> forall u :: u in r.value <==> DiscoveredIn(listing, |listing|, u)
  {
    var urls: set<string> := {};
    var k := 0;
    while k < |listing|
      invariant 0 <= k <= |listing|
      invariant forall m :: 0 <= m < k && IsIncentivesCsv(listing[m].0) ==> listing[m].1.hasSource
      invariant forall u :: u in urls <==> DiscoveredIn(listing, k, u)
    {
      var (name, csv) := listing[k];
      if IsIncentivesCsv(name) {
        if !csv.hasSource {
          return Err("ValueError");
        }
        forall u
          ensures u in urls + UrlsOf(csv) <==> DiscoveredIn(listing, k + 1, u)
        {
          if u in UrlsOf(csv) {
            var row :| row in csv.rows && Contributes(row, csv.hasTypes) && row.source.value == u;
            assert 0 <= k < k + 1 && IsIncentivesCsv(listing[k].0) && row in listing[k].1.rows;
          }
          if DiscoveredIn(listing, k + 1, u) {
            var m, row :| 0 <= m < k + 1 && m < |listing| && IsIncentivesCsv(listing[m].0) &&
              row in listing[m].1.rows && Contributes(row, listing[m].1.hasTypes) && row.source.value == u;
            if m < k {
              assert DiscoveredIn(listing, k, u);
            } else {
              assert u in UrlsOf(csv);
            }
          }
        }
        urls := urls + UrlsOf(csv);
      } else {
        forall u
          ensures DiscoveredIn(listing, k + 1, u) ==> DiscoveredIn(listing, k, u)
        {
          if DiscoveredIn(listing, k + 1, u) {
            var m, row :| 0 <= m < k + 1 && m < |listing| && IsIncentivesCsv(listing[m].0) &&
              row in listing[m].1.rows && Contributes(row, listing[m].1.hasTypes) && row.source.value == u;
            assert m != k;
          }
        }
      }
      k := k + 1;
    }
    return Ok(urls);
  }

  // =====================================================================
  // One result row per URL (lines 50-81)
  // =====================================================================

  /** What requesting a URL gives: the page's plain text, or the class name of the exception raised. */
  datatype Fetch = Page(text: string) | Failure(exceptionClass: string)

  /** A row of incentive_amount_scan.csv. */
  datatype ResultRow = ResultRow(sourceUrl: string, found: string, firstMatch: string)

  /** The row appended for one URL. */
  function ResultFor(url: string, fetch: Fetch): ResultRow
  {
    match fetch
    case Failure(e) => ResultRow(url, "error (" + e + ")", "")
    case Page(text) =>
      match FirstMatch(text)
      case Some(m) => ResultRow(url, "yes", m)
      case None => ResultRow(url, "no", "")
  }

  /**
   * A fetched page is "yes" exactly when the amount pattern matches
   * somewhere in its text, and its first_match is then the leftmost match
   * (the longest one at that position); otherwise it is "no" with an empty
   * first_match. A failed fetch records the exception class and no match.
   */
  lemma ResultForSpec(url: string, fetch: Fetch)
    ensures ResultFor(url, fetch).sourceUrl == url
    ensures fetch.Failure? ==>
      ResultFor(url, fetch).found == "error (" + fetch.exceptionClass + ")" && ResultFor(url, fetch).firstMatch == ""
    ensures fetch.Page? ==>
      (ResultFor(url, fetch).found == "yes" <==> exists i: nat, j: nat :: Matches(fetch.text, i, j))
    ensures fetch.Page? ==>
      (ResultFor(url, fetch).found == "no" <==> !exists i: nat, j: nat :: Matches(fetch.text, i, j))
    ensures fetch.Page? && ResultFor(url, fetch).found == "no" ==> ResultFor(url, fetch).firstMatch == ""
    ensures fetch.Page? && ResultFor(url, fetch).found == "yes" ==>
      exists i: nat, j: nat :: Matches(fetch.text, i, j) && ResultFor(url, fetch).firstMatch == fetch.text[i..j] &&
        (forall k: nat, j': nat :: k < i ==> !Matches(fetch.text, k, j')) &&
        (forall j': nat :: Matches(fetch.text, i, j') ==> j' <= j)
  {
    if fetch.Page? {
      var text := fetch.text;
      SearchLeftmostLongest(text);
      if Search(text).Some? {
        var (i, j) := Search(text).value;
        MatchShape(text, i, j);
        assert ResultFor(url, fetch).firstMatch == text[i..j];
      }
    }
  }

  /**
   * The loop of lines 51-81: the URLs in sorted order, one row each. The
   * pause between requests and the progress output are not modelled.
   */
  method ScanUrls(urls: set<string>, fetch: string -> Fetch) returns (rows: seq<ResultRow>)
    ensures |rows| == |urls|
    ensures forall u :: u in urls <==> exists k :: 0 <= k < |rows| && rows[k].sourceUrl == u
    ensures forall a, b :: 0 <= a < b < |rows| ==> Less(rows[a].sourceUrl, rows[b].sourceUrl)
    ensures forall k :: 0 <= k < |rows| ==> rows[k] == ResultFor(rows[k].sourceUrl, fetch(rows[k].sourceUrl))
  {
    var order := SortedList(urls);
    rows := [];
    var i := 0;
    while i < |order|
      invariant 0 <= i <= |order|
      invariant |rows| == i
      invariant forall k :: 0 <= k < i ==> rows[k].sourceUrl == order[k]
      invariant forall k :: 0 <= k < i ==> rows[k] == ResultFor(order[k], fetch(order[k]))
    {
      var row := ResultFor(order[i], fetch(order[i]));
      ResultForUrl(order[i], fetch(order[i]));
      rows := rows + [row];
      i := i + 1;
    }
    forall u | u in urls
      ensures exists k :: 0 <= k < |rows| && rows[k].sourceUrl == u
    {
      var k :| 0 <= k < |order| && order[k] == u;
      assert rows[k].sourceUrl == u;
    }
  }

  /** Each result row is filed under the URL it was made for. */
  lemma ResultForUrl(url: string, fetch: Fetch)
    ensures ResultFor(url, fetch).sourceUrl == url
  {
  }

  /** The whole script: gather the URLs, then produce the result rows, or stop with the read error. */
  method ScanIncentiveAmounts(listing: seq<(string, Csv)>, fetch: string -> Fetch)
    returns (r: Result<seq<ResultRow>, string>)
    ensures r.Err? <==> MissingSource(listing)
    ensures r.Ok? ==> forall u :: DiscoveredIn(listing, |listing|, u) <==>
      exists k :: 0 <= k < |r.value| && r.value[k].sourceUrl == u
    ensures r.Ok? ==> forall a, b :: 0 <= a < b < |r.value| ==> Less(r.value[a].sourceUrl, r.value[b].sourceUrl)
    ensures r.Ok? ==> forall k :: 0 <= k < |r.value| ==>
      r.value[k] == ResultFor(r.value[k].sourceUrl, fetch(r.value[k].sourceUrl))
  {
    var gathered := GatherUrls(listing);
    match gathered
    case Err(e) =>
      return Err(e);
    case Ok(urls) =>
      var rows := ScanUrls(urls, fetch);
      return Ok(rows);
  }
}
