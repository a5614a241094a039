/**
 The two source adapters of `scrape_jobs.py`, from the raw response onward.
 The search-API call and the page fetch are not modelled: their results are
 the inputs here. The API side is the list under "jobs_results", or `None`
 when the response has no such entry; the page side is the HTTP status and,
 for each `div.job-item` container, the text of the title link, the employer
 block and the description block (`None` when the selector finds nothing).
 */
module ScrapeJobs {
  import opened Text
  import opened Jobs

  /** One search-API result: a JSON object with string values. */
  type RawResult = map<string, string>

  /** What the API returned under "jobs_results", if anything. */
  type ApiResponse = Option<seq<RawResult>>

  /** The tag texts found inside one listing container. */
  datatype Listing = Listing(titleText: Option<string>, employerText: Option<string>, descriptionText: Option<string>)

  /** The page fetch: status code and the listing containers of the body. */
  datatype PageResponse = PageResponse(status: int, listings: seq<Listing>)

  const Missing := "N/A"
  const IndeedSource := "Indeed (via SerpAPI)"
  const OnlineJobsSource := "OnlineJobs.ph"
  const OnlineJobsLocation := "Remote (OnlineJobs.ph)"
  const HttpOk := 200

  /** The keys of a search-API result that the record is built from. */
  const IndeedKeys: set<string> := {"title", "company_name", "location", "description"}

  /** How many elements Python's `xs[:limit]` keeps of a list of length `n`;
      a negative `limit` counts from the end. */
  function SliceLength(n: nat, limit: int): (k: nat)
    ensures k <= n
    ensures 0 <= limit ==> k == if limit < n then limit else n
    ensures limit < 0 ==> k + (if -limit < n then -limit else n) == n
  {
    if 0 <= limit then (if limit < n then limit else n)
    else if n + limit < 0 then 0 else n + limit
  }

  /** Python's `xs[:limit]`. */
  function Head<T>(xs: seq<T>, limit: int): seq<T> {
    xs[..SliceLength(|xs|, limit)]
  }

  /** Python's `d.get(key, default)`. */
  function Get(d: RawResult, key: string, default: string): string {
    if key in d then d[key] else default
  }

  /** The record built for one API result. Each field is copied from its raw
      key, or takes its default when the key is absent. */
  function IndeedRecord(raw: RawResult): (j: Job)
    ensures "title" in raw ==> j.title == raw["title"]
    ensures "title" !in raw ==> j.title == Missing
    ensures "company_name" in raw ==> j.company == raw["company_name"]
    ensures "company_name" !in raw ==> j.company == Missing
    ensures "location" in raw ==> j.location == raw["location"]
    ensures "location" !in raw ==> j.location == Missing
    ensures "description" in raw ==> j.description == raw["description"]
    ensures "description" !in raw ==> j.description == ""
    ensures j.source == IndeedSource && j.query == None
  {
    Job(
      Get(raw, "title", Missing),
      Get(raw, "company_name", Missing),
      Get(raw, "location", Missing),
      Get(raw, "description", ""),
      IndeedSource,
      None)
  }

  /** `scrape_indeed_jobs` after the request: no results entry gives an empty
      list; otherwise the first `limit` results, each mapped to a record, in
      order. */
  function ScrapeIndeed(response: ApiResponse, limit: int): (jobs: seq<Job>)
    ensures response.None? ==> jobs == []
    ensures response.Some? ==> |jobs| == SliceLength(|response.value|, limit)
    ensures response.Some? ==> forall i :: 0 <= i < |jobs| ==> jobs[i] == IndeedRecord(response.value[i])
  {
    match response
    case None => []
    case Some(results) =>
      var kept := Head(results, limit);
      seq(|kept|, i requires 0 <= i < |kept| => IndeedRecord(kept[i]))
  }

  /** The text of an optional tag, stripped, or `default` when the selector
      found nothing. */
  function TagText(tag: Option<string>, default: string): string {
    match tag
    case Some(text) => Strip(text)
    case None => default
  }

  /** The record built for one listing container. The location and the source
      are constants of the site, whatever the listing holds. */
  function OnlineJobsRecord(listing: Listing): (j: Job)
    ensures listing.titleText.None? ==> j.title == Missing
    ensures listing.titleText.Some? ==> j.title == Strip(listing.titleText.value)
    ensures listing.employerText.None? ==> j.company == Missing
    ensures listing.employerText.Some? ==> j.company == Strip(listing.employerText.value)
    ensures listing.descriptionText.None? ==> j.description == ""
    ensures listing.descriptionText.Some? ==> j.description == Strip(listing.descriptionText.value)
    ensures j.location == OnlineJobsLocation && j.source == OnlineJobsSource && j.query == None
  {
    Job(
      TagText(listing.titleText, Missing),
      TagText(listing.employerText, Missing),
      OnlineJobsLocation,
      TagText(listing.descriptionText, ""),
      OnlineJobsSource,
      None)
  }

  /** `scrape_onlinejobs_ph` after the fetch: a status other than 200 gives an
      empty list; otherwise the first `limit` listings, each mapped to a
      record, in order. */
  function ScrapeOnlineJobs(page: PageResponse, limit: int): (jobs: seq<Job>)
    ensures page.status != HttpOk ==> jobs == []
    ensures page.status == HttpOk ==> |jobs| == SliceLength(|page.listings|, limit)
    ensures page.status == HttpOk ==> forall i :: 0 <= i < |jobs| ==> jobs[i] == OnlineJobsRecord(page.listings[i])
  {
    if page.status != HttpOk then []
    else
      var kept := Head(page.listings, limit);
      seq(|kept|, i requires 0 <= i < |kept| => OnlineJobsRecord(kept[i]))
  }

  /** Under a non-negative limit neither adapter returns more than `limit`
      records, and every record it returns carries that adapter's source tag and
      no "query" key yet. */
  lemma AdaptersBounded(response: ApiResponse, page: PageResponse, limit: int)
    requires 0 <= limit
    ensures |ScrapeIndeed(response, limit)| <= limit
    ensures |ScrapeOnlineJobs(page, limit)| <= limit
    ensures forall j :: j in ScrapeIndeed(response, limit) ==> j.query == None && j.source == IndeedSource
    ensures forall j :: j in ScrapeOnlineJobs(page, limit) ==> j.query == None && j.source == OnlineJobsSource
  {
  }

  /** Every OnlineJobs record has stripped text fields: none begins or ends
      with whitespace, whatever the page held. */
  lemma OnlineJobsTextStripped(page: PageResponse, limit: int)
    ensures forall j :: j in ScrapeOnlineJobs(page, limit) ==>
      NotPadded(j.title) && NotPadded(j.company) && NotPadded(j.description)
      && j.location == OnlineJobsLocation
  {
    assert NotPadded(Missing);
  }

  /** The Indeed record depends only on the four keys it reads: any other
      entry of the raw result is ignored. */
  lemma IndeedRecordReadsFourKeys(a: RawResult, b: RawResult)
    requires forall k :: k in IndeedKeys ==> (k in a <==> k in b) && (k in a ==> a[k] == b[k])
    ensures IndeedRecord(a) == IndeedRecord(b)
  {
    assert "title" in IndeedKeys && "company_name" in IndeedKeys;
    assert "location" in IndeedKeys && "description" in IndeedKeys;
  }

  /** Re-stripping an OnlineJobs record changes nothing: its text fields are
      already in the form `strip()` produces. */
  lemma OnlineJobsRecordStable(listing: Listing)
    ensures OnlineJobsRecord(Listing(Some(OnlineJobsRecord(listing).title),
                                     Some(OnlineJobsRecord(listing).company),
                                     Some(OnlineJobsRecord(listing).description)))
            == OnlineJobsRecord(listing)
  {
    var j := OnlineJobsRecord(listing);
    assert NotPadded(Missing) && NotPadded("");
    StripUnpadded(j.title);
    StripUnpadded(j.company);
    StripUnpadded(j.description);
  }
}
