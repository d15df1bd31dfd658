/** The whole run of the tool: read the URL list, scrape every URL with one
    browser, and write the collected cards as a CSV file when there are any. */
module Pipeline {
  import opened Types
  import opened Text
  import opened Cards
  import opened Csv
  import opened Urls
  import opened Extract
  import opened Batch

  /** How a run that did not fail ends. `NoUrls`: the URL list was missing, could not
      be opened or held no URLs, and nothing was scraped. `Finished`: every URL was
      scraped; `csv` is the content written to the output file, if one was written. */
  datatype Report =
    | NoUrls
    | Finished(csv: Option<string>, total: nat, successful: nat, failed: nat)

  /** Errors that end the run: the browser cannot be started, or the output file
      cannot be created or written. */
  datatype Fatal = BrowserStartFailed | CsvWriteFailed

  /** The URLs to scrape; an unreadable list counts as an empty one. */
  function UrlList(file: UrlFile): (urls: seq<string>)
    ensures !file.Present? ==> urls == []
    ensures file.Present? ==> urls == ReadUrls(file.lines)
    ensures forall k :: 0 <= k < |urls| ==> IsUrlLine(urls[k]) && IsTrimmed(urls[k])
    ensures urls == [] <==>
      !file.Present? || forall i :: 0 <= i < |file.lines| ==> !IsUrlLine(Trim(file.lines[i]))
  {
    match ReadUrlsFromFile(file)
    case Ok(urls) => urls
    case Err(_) => []
  }

  /** The outcome of scraping each URL, where `fetch(i, url)` is the page the browser
      delivers for the `i`-th URL (so repeated URLs are loaded independently). */
  function Outcomes(urls: seq<string>, fetch: (nat, string) -> Page): seq<Outcome> {
    seq(|urls|, i requires 0 <= i < |urls| => ScrapeFlashcards(fetch(i, urls[i])))
  }

  /** One run of the tool. `browserStarts` says whether the browser could be
      launched and `canWrite` whether the output file can be created and written. */
  method Run(file: UrlFile, browserStarts: bool, fetch: (nat, string) -> Page, canWrite: bool)
    returns (r: Result<Report, Fatal>)
    ensures UrlList(file) == [] <==> r == Ok(NoUrls)
    ensures r == Err(BrowserStartFailed) <==> UrlList(file) != [] && !browserStarts
    ensures (UrlList(file) != [] && browserStarts
      && (canWrite || Collected(Outcomes(UrlList(file), fetch)) == [])) ==> r.Ok? && r.value.Finished?
    ensures r == Err(CsvWriteFailed) <==>
      UrlList(file) != [] && browserStarts && !canWrite
      && Collected(Outcomes(UrlList(file), fetch)) != []
    ensures r.Ok? && r.value.Finished? ==>
      var os := Outcomes(UrlList(file), fetch);
      && r.value.total == |Collected(os)|
      && r.value.successful == Successes(os)
      && r.value.failed == Failures(os)
      && r.value.successful + r.value.failed == |UrlList(file)|
      && (r.value.csv.Some? <==> Collected(os) != [])
      && (r.value.csv.Some? ==> r.value.csv.value == WriteCsv(Collected(os)))
  {
    var urls := UrlList(file);
    if urls == [] {
      return Ok(NoUrls);
    }
    if !browserStarts {
      return Err(BrowserStartFailed);
    }
    var allCards, successful, failed := RunBatch(Outcomes(urls, fetch));
    if allCards != [] {
      if !canWrite {
        return Err(CsvWriteFailed);
      }
      r := Ok(Finished(Some(WriteCsv(allCards)), |allCards|, successful, failed));
    } else {
      r := Ok(Finished(None, 0, successful, failed));
    }
  }
}
