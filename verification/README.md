# JobTrackr ingestion core, modelled in Dafny

JobTrackr collects job listings from two sources and stores them in a
Supabase table. The first source is Google Jobs, reached through SerpAPI and
tagged "Indeed (via SerpAPI)". The second is the OnlineJobs.ph search page.
This project models the pure data-shaping part of that pipeline:

- `ScrapeJobs` (`scrape_jobs.dfy`): the two adapters after their network call.
  Each one decides whether there are results at all, truncates to `limit`
  with Python slice semantics, and maps each raw result to a five-field
  record. Missing fields get `"N/A"` or `""`, and each adapter sets a fixed
  source tag. OnlineJobs records also get a fixed location and stripped tag
  texts.
- `Dedup` (`dedup.dfy`): `remove_duplicates`. It keeps the first record for
  each case-folded `(title, company, location)` key and preserves input
  order. It appears both as a recursive function with a seen-set accumulator
  and as the source's loop, and the two are proved equal.
- `TestScraper` (`test_scraper.dfy`): the driver. For each search term it
  tags both adapters' records with the term and appends them, search-API
  records first. It then deduplicates the batch and projects each record to
  the six-column insert payload.
- `Text` (`text.dfy`): Python's `str.strip()` over the exact `str.isspace()`
  character set, and `str.lower()` on ASCII letters.
- `Jobs` (`jobs.dfy`): the `Job` record, the identity key, and predicates on
  batches: distinct keys, and subsequence.

The network calls become inputs:

- The SerpAPI response is `Option<seq<map<string,string>>>`. `None` stands
  for a response with no "jobs_results" entry.
- The page fetch is a status code plus, for each `div.job-item` container, the
  optional texts of its title link, employer block and description block.
- Each `QueryRun` holds what the two calls returned for one search term.

## Model

| member | source | states |
|---|---|---|
| `Text.LeadingSpace` | backend/app/services/scrape_jobs.py:68 | the number of characters `strip()` removes at the front: all of them are whitespace, and the character after them, if any, is not |
| `Text.TrailingSpace` | backend/app/services/scrape_jobs.py:68 | the number of characters `strip()` removes at the back: all of them are whitespace, and the character before them, if any, is not |
| `Text.TrimStart` | backend/app/services/scrape_jobs.py:68 | the result is a suffix of the input, everything dropped is whitespace, and it does not begin with whitespace |
| `Text.TrimEnd` | backend/app/services/scrape_jobs.py:68 | the result is a prefix of the input, everything dropped is whitespace, and it does not end with whitespace |
| `Text.Strip` | backend/app/services/scrape_jobs.py:68-71 | `strip()` returns an infix of its input with only whitespace around it, and the result neither begins nor ends with whitespace |
| `Text.StripUnique` | backend/app/services/scrape_jobs.py:68-71 | for any whitespace run, unpadded text and whitespace run, `strip()` of their concatenation is exactly that text, so the result is fully determined |
| `Text.StripUnpadded` | backend/app/services/scrape_jobs.py:68-71 | text with no whitespace at either end is left unchanged by `strip()` |
| `Text.StripIdempotent` | backend/app/services/scrape_jobs.py:68-71 | stripping twice equals stripping once |
| `Text.Lower` | backend/app/services/test_scraper.py:35 | `lower()` keeps the length, leaves no upper-case ASCII letter, and changes a character only by moving an upper-case ASCII letter to its lower-case form; only ASCII letters are folded (weaker than Python, see Left out) |
| `Text.LowerIdempotent` | backend/app/services/test_scraper.py:35 | case-folding an already folded string changes nothing |
| `Jobs.Key` | backend/app/services/test_scraper.py:35 | the key holds the title, company and location, case-folded: same lengths as the record's fields and no upper-case ASCII letter in any of them (what equal keys mean is `Jobs.KeyEqIff`) |
| `Jobs.KeyEqIff` | backend/app/services/test_scraper.py:35-36 | two records have the same key exactly when their titles, companies and locations are equal up to letter case, so `remove_duplicates` treats exactly those records as duplicates |
| `Text.LowerEqIff` | backend/app/services/test_scraper.py:35 | two strings fold to the same string exactly when they agree up to ASCII letter case at every position |
| `Jobs.KeyIgnoresCaseAndOtherFields` | backend/app/services/test_scraper.py:35 | the key is unchanged when title, company and location are case-folded first, and when description, source or query change |
| `Dedup.DedupFrom` | backend/app/services/test_scraper.py:32-38 | from any seen-set, the kept records have pairwise distinct keys, none of them already seen, and together with the seen keys they cover every key of the input; the kept records are an order-preserving subsequence of the input |
| `Dedup.RemoveDuplicates` | backend/app/services/test_scraper.py:31-39 | no two output records share a case-folded (title, company, location) key; the output's key set equals the input's; the output is an order-preserving subsequence of unchanged input records |
| `Dedup.RemoveDuplicatesIsFirsts` | backend/app/services/test_scraper.py:31-39 | the output is exactly the input records that are the first with their key, in input order: the reference `Firsts` fixes content and order |
| `Dedup.DedupFromSnoc` | backend/app/services/test_scraper.py:33-38 | one more input record adds itself at the end of the output exactly when its key is neither seen nor carried by an earlier record |
| `Dedup.LastIsFirst` | backend/app/services/test_scraper.py:35-36 | the last record is the first with its key exactly when no earlier record has that key |
| `Dedup.RemoveDuplicatesLoop` | backend/app/services/test_scraper.py:31-39 | the source's loop, with `seen` always equal to the keys of `unique_jobs`, returns exactly `RemoveDuplicates` |
| `Dedup.DedupFromFirstWins` | backend/app/services/test_scraper.py:35-38 | the first record with a key not yet seen is kept, and any kept record with that key is that first record |
| `Dedup.FirstOccurrenceWins` | backend/app/services/test_scraper.py:35-38 | for every key, the first input record carrying it is in the output, and it is the only output record with that key; original casing is kept |
| `Dedup.DedupFromKeepsDistinct` | backend/app/services/test_scraper.py:32-38 | a batch whose keys are distinct and unseen passes through unchanged |
| `Dedup.RemoveDuplicatesIdempotent` | backend/app/services/test_scraper.py:31-39 | applying `remove_duplicates` twice equals applying it once |
| `Dedup.DistinctKeysCount` | backend/app/services/test_scraper.py:35-38 | a batch with distinct keys has exactly as many keys as records |
| `Dedup.RemoveDuplicatesCount` | backend/app/services/test_scraper.py:33-39 | the output length is the number of distinct keys in the input, and at most the input length |
| `ScrapeJobs.SliceLength` | backend/app/services/scrape_jobs.py:28 | `xs[:limit]` keeps `min(limit, n)` elements for a non-negative limit, and drops `-limit` trailing elements, down to none, for a negative one |
| `ScrapeJobs.IndeedRecord` | backend/app/services/scrape_jobs.py:33-39 | title, company and location come from raw keys "title", "company_name" and "location", or are "N/A" when absent; description comes from "description" or is ""; the source is "Indeed (via SerpAPI)"; there is no query yet |
| `ScrapeJobs.ScrapeIndeed` | backend/app/services/scrape_jobs.py:24-41 | no "jobs_results" gives the empty list; otherwise exactly `min(limit, n)` records for non-negative limits, record i built from raw result i |
| `ScrapeJobs.OnlineJobsRecord` | backend/app/services/scrape_jobs.py:62-73 | a missing title or employer tag gives "N/A", a missing description tag gives "", a present tag gives its stripped text; location and source are the site constants whatever the listing holds |
| `ScrapeJobs.ScrapeOnlineJobs` | backend/app/services/scrape_jobs.py:53-75 | a status other than 200 gives the empty list; otherwise exactly `min(limit, n)` records for non-negative limits, record i built from listing i |
| `ScrapeJobs.AdaptersBounded` | backend/app/services/scrape_jobs.py:28-72 | with a non-negative limit, neither adapter returns more than `limit` records, and every record carries its adapter's source tag and no query |
| `ScrapeJobs.OnlineJobsTextStripped` | backend/app/services/scrape_jobs.py:65-73 | no OnlineJobs title, company or description begins or ends with whitespace, and every location is "Remote (OnlineJobs.ph)" |
| `ScrapeJobs.IndeedRecordReadsFourKeys` | backend/app/services/scrape_jobs.py:34-37 | two raw results that agree on the four keys read give the same record; every other key is ignored |
| `ScrapeJobs.OnlineJobsRecordStable` | backend/app/services/scrape_jobs.py:68-71 | feeding a record's own fields back in as tag texts yields the same record: its texts are already in stripped form |
| `TestScraper.TagQuery` | backend/app/services/test_scraper.py:78-79 | tagging keeps the length and order, sets every record's query to the term, and changes nothing else |
| `TestScraper.QueryBatch` | backend/app/services/test_scraper.py:76-86 | one iteration appends at most 20 records, all tagged with that iteration's term |
| `TestScraper.AssembleBatch` | backend/app/services/test_scraper.py:70-88 | the batch holds at most 20 records per term |
| `TestScraper.AssembleBatchTagged` | backend/app/services/test_scraper.py:73-86 | every record of the batch is tagged with the term of one of the runs |
| `TestScraper.AssembleBatchAppend` | backend/app/services/test_scraper.py:73-86 | the batch of consecutive runs is the concatenation of their batches; with `TestScraper.AssembleBatchOne` this makes the batch each term's own records, query by query in list order |
| `TestScraper.AssembleBatchStep` | backend/app/services/test_scraper.py:70-88 | `all_jobs` starts empty, and each iteration appends exactly its own term's records at the end, so the batch is the concatenation of the per-term batches in list order |
| `TestScraper.AssembleBatchOne` | backend/app/services/test_scraper.py:73-86 | the batch of a single term is exactly that term's iteration: its search-API records then its OnlineJobs records, each tagged with the term (with `TestScraper.QueryBatchUntags`) |
| `TestScraper.QueryBatchUntags` | backend/app/services/test_scraper.py:76-86 | with the query removed, one iteration's records are exactly the search-API adapter's result followed by the OnlineJobs adapter's result |
| `TestScraper.InsertPayload` | backend/app/services/test_scraper.py:43-50 | the payload has exactly the six columns; "query" is null exactly when the record has none; reading the payload back gives the record, so title, company, location, description, source and query are copied unchanged |
| `TestScraper.InsertPayloads` | backend/app/services/test_scraper.py:41-50 | one payload per record, in order; each has exactly the six columns, its "query" is null exactly when the record has none, and it reads back to its record, which fixes every column |
| `TestScraper.PipelineRows` | backend/app/services/test_scraper.py:90-97 | the records inserted number at most the batch size and at most 20 per term; each is a fetched record tagged with one of the terms; no two share a case-folded key; there is one payload per record |
| `TestScraper.DriverRun` | backend/app/services/test_scraper.py:62-91 | over the five fixed search terms, at most 100 records reach the store, each tagged with one of those terms |

`ScrapeJobs.Head` (Python's `xs[:limit]`, scrape_jobs.py:28 and 61) and
`ScrapeJobs.Get` (`dict.get` with a default, scrape_jobs.py:34-37) are helpers
of `ScrapeJobs.SliceLength`, `ScrapeJobs.ScrapeIndeed`,
`ScrapeJobs.ScrapeOnlineJobs` and `ScrapeJobs.IndeedRecord`, whose rows state
their effect. `ScrapeJobs.TagText` (the stripped text of an optional tag,
scrape_jobs.py:68-71) is a helper of `ScrapeJobs.OnlineJobsRecord`, whose row
states its effect. `Dedup.Firsts` is the reference definition used by
`Dedup.RemoveDuplicatesIsFirsts`, and `Text.SameIgnoringCase` the one used by
`Text.LowerEqIff` and `Jobs.KeyEqIff`. `TestScraper.ConcatMap` (the
`all_jobs.extend` calls, test_scraper.py:80 and 86) is a helper of
`TestScraper.AssembleBatch`, `TestScraper.AssembleBatchTagged` and
`TestScraper.AssembleBatchAppend`. `TestScraper.PipelineJobs` (the
`remove_duplicates` call, test_scraper.py:91) and `TestScraper.PipelinePayloads`
(the `insert_jobs` call, test_scraper.py:97) are helpers of
`TestScraper.PipelineRows` and `TestScraper.DriverRun`, whose rows state their
effect.

## Left out

- Network calls: the SerpAPI `GoogleSearch.get_dict()` call, `requests.get` and the Supabase client with its `insert().execute()` are not modelled. Their results are the inputs to the model.
- HTML parsing: BeautifulSoup and its CSS selectors are not modelled. A listing is modelled as the three optional tag texts they would yield.
- URL building: `urllib.parse.quote_plus` is not modelled. It only shapes the request URL, and the request is not modelled.
- The debug report `save_jobs_to_html` is not modelled. It is a file-writing sink.
- `time.sleep` is not modelled.
- Environment and credential checks are not modelled. A missing key raises before any data is shaped.
- Log output is not modelled.
- The per-record `try`/`except` around the insert is not modelled. Every record still gets a payload, and no counters are kept.
- `backend/app/db/database.py` (engine and session setup) and `backend/app/models/job.py` (the table declaration, with a `salary` column the pipeline never fills) have no behaviour to state.
- `Text.Lower`: only ASCII letters are case-folded, whereas Python's `str.lower()` follows full Unicode case mapping. Every deduplication property is proved for the model's key function and does not depend on how it folds.
- `ScrapeJobs.IndeedRecord`: raw result values are modelled as strings. A JSON `null`, or a non-string value under one of the four keys, is not represented. In the source `dict.get` would return that value rather than the default.
- Timestamps (`posted_at`, `scraped_at`), links, salary and an existence check: the code parses no timestamps, builds no links, extracts no salary and does no existence check before insert. The model follows the code.
