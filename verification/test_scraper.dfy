/**
 The driver of `test_scraper.py`: for each search term it runs both adapters,
 tags their records with the term, and appends them to one batch (the search-API
 records first, then the OnlineJobs records); the batch is then deduplicated
 and each remaining record is projected to the row handed to the store.
 The fetches themselves are inputs: one `QueryRun` per search term holds what
 the two upstream calls returned for it.
 */
module TestScraper {
  import opened Jobs
  import opened ScrapeJobs
  import opened Dedup

  /** The search terms the driver walks through, in order. */
  const Queries: seq<string> := [
    "data scientist",
    "data engineer",
    "data analyst",
    "machine learning engineer",
    "business intelligence analyst"
  ]

  /** The `limit` the driver passes to both adapters. */
  const Limit := 10

  /** What the two upstream calls returned for one search term. */
  datatype QueryRun = QueryRun(query: string, api: ApiResponse, page: PageResponse)

  /** `job["query"] = q` for every record of an adapter's result: the records
      gain the query and are otherwise unchanged, in the same order. */
  function TagQuery(jobs: seq<Job>, q: string): (tagged: seq<Job>)
    ensures |tagged| == |jobs|
    ensures forall i :: 0 <= i < |tagged| ==> tagged[i].query == Some(q)
    ensures forall i :: 0 <= i < |tagged| ==> tagged[i].(query := jobs[i].query) == jobs[i]
  {
    seq(|jobs|, i requires 0 <= i < |jobs| => jobs[i].(query := Some(q)))
  }

  /** The records one iteration of the driver's loop appends. */
  function QueryBatch(run: QueryRun): (batch: seq<Job>)
    ensures |batch| <= 2 * Limit
    ensures forall j :: j in batch ==> j.query == Some(run.query)
  {
    AdaptersBounded(run.api, run.page, Limit);
    TagQuery(ScrapeIndeed(run.api, Limit), run.query)
      + TagQuery(ScrapeOnlineJobs(run.page, Limit), run.query)
  }

  /** The concatenation of `f(x)` over `xs`, built by appending at the end
      as `list.extend` does. */
  function ConcatMap<A, B>(f: A -> seq<B>, xs: seq<A>): seq<B>
    decreases |xs|
  {
    if |xs| == 0 then [] else ConcatMap(f, xs[..|xs| - 1]) + f(xs[|xs| - 1])
  }

  lemma {:induction false} ConcatMapAppend<A, B>(f: A -> seq<B>, a: seq<A>, b: seq<A>)
    ensures ConcatMap(f, a + b) == ConcatMap(f, a) + ConcatMap(f, b)
    decreases |b|
  {
    if |b| == 0 {
      assert a + b == a;
    } else {
      var ab := a + b;
      assert ab[..|ab| - 1] == a + b[..|b| - 1] && ab[|ab| - 1] == b[|b| - 1];
      ConcatMapAppend(f, a, b[..|b| - 1]);
    }
  }

  lemma {:induction false} ConcatMapBounded<A, B>(f: A -> seq<B>, xs: seq<A>, n: nat)
    requires forall x :: x in xs ==> |f(x)| <= n
    ensures |ConcatMap(f, xs)| <= n * |xs|
    decreases |xs|
  {
    if |xs| > 0 {
      var init := xs[..|xs| - 1];
      var last := xs[|xs| - 1];
      assert forall x :: x in init ==> x in xs;
      assert last in xs;
      ConcatMapBounded(f, init, n);
      assert |ConcatMap(f, xs)| == |ConcatMap(f, init)| + |f(last)|;
      assert n * |xs| == n * |init| + n;
    }
  }

  lemma {:induction false} ConcatMapMembers<A, B>(f: A -> seq<B>, xs: seq<A>)
    ensures forall y :: y in ConcatMap(f, xs) ==> exists k :: 0 <= k < |xs| && y in f(xs[k])
    decreases |xs|
  {
    if |xs| > 0 {
      var init := xs[..|xs| - 1];
      ConcatMapMembers(f, init);
      assert ConcatMap(f, xs) == ConcatMap(f, init) + f(xs[|xs| - 1]);
      forall y | y in ConcatMap(f, xs) ensures exists k :: 0 <= k < |xs| && y in f(xs[k]) {
        if y in f(xs[|xs| - 1]) {
        } else {
          assert y in ConcatMap(f, init);
          var k :| 0 <= k < |init| && y in f(init[k]);
          assert init[k] == xs[k];
        }
      }
    }
  }

  /** `all_jobs` after the driver's loop over `runs`: at most 20 records per
      search term. */
  function AssembleBatch(runs: seq<QueryRun>): (all: seq<Job>)
    ensures |all| <= 2 * Limit * |runs|
  {
    ConcatMapBounded(QueryBatch, runs, 2 * Limit);
    ConcatMap(QueryBatch, runs)
  }

  /** Every record of the batch carries the search term of one of the runs. */
  lemma AssembleBatchTagged(runs: seq<QueryRun>)
    ensures forall j :: j in AssembleBatch(runs) ==>
      j.query.Some? && exists k :: 0 <= k < |runs| && runs[k].query == j.query.value
  {
    ConcatMapMembers(QueryBatch, runs);
  }

  /** The batch of consecutive runs is the batch of the first followed by the
      batch of the second: query by query, in list order. */
  lemma AssembleBatchAppend(a: seq<QueryRun>, b: seq<QueryRun>)
    ensures AssembleBatch(a + b) == AssembleBatch(a) + AssembleBatch(b)
  {
    ConcatMapAppend(QueryBatch, a, b);
  }

  /** The loop starts from an empty `all_jobs`, and each iteration appends
      exactly that run's records (search-API first, then OnlineJobs) at the
      end. */
  lemma AssembleBatchStep(runs: seq<QueryRun>, r: QueryRun)
    ensures AssembleBatch([]) == []
    ensures AssembleBatch(runs + [r]) == AssembleBatch(runs) + QueryBatch(r)
  {
    var rr := runs + [r];
    assert rr[..|rr| - 1] == runs && rr[|rr| - 1] == r;
  }

  /** One search term alone contributes exactly its own iteration's records. */
  lemma AssembleBatchOne(r: QueryRun)
    ensures AssembleBatch([r]) == QueryBatch(r)
  {
    AssembleBatchStep([], r);
    assert [] + [r] == [r];
  }

  /** A record with its query key removed, as the adapter returned it. */
  function Untag(j: Job): Job {
    j.(query := None)
  }

  /** Tagging changes nothing but the query: removing it again gives back the
      adapter's own result for that search term, the search-API records
      followed by the OnlineJobs records. */
  lemma QueryBatchUntags(run: QueryRun)
    ensures |QueryBatch(run)| == |ScrapeIndeed(run.api, Limit)| + |ScrapeOnlineJobs(run.page, Limit)|
    ensures forall i :: 0 <= i < |QueryBatch(run)| ==>
      Untag(QueryBatch(run)[i]) == (ScrapeIndeed(run.api, Limit) + ScrapeOnlineJobs(run.page, Limit))[i]
  {
    var indeed := ScrapeIndeed(run.api, Limit);
    var online := ScrapeOnlineJobs(run.page, Limit);
    AdaptersBounded(run.api, run.page, Limit);
    var batch := QueryBatch(run);
    forall i | 0 <= i < |batch|
      ensures Untag(batch[i]) == (indeed + online)[i]
    {
      if i < |indeed| {
        assert batch[i] == TagQuery(indeed, run.query)[i];
        assert indeed[i] in indeed;
      } else {
        assert batch[i] == TagQuery(online, run.query)[i - |indeed|];
        assert online[i - |indeed|] in online;
      }
    }
  }

  /** The JSON value of one column of the insert payload. */
  datatype Value = Null | Str(text: string)

  /** The columns of the insert payload. */
  const PayloadColumns: set<string> := {"title", "company", "location", "description", "source", "query"}

  /** The payload `insert_jobs` builds for one record: the five text fields
      copied, and "query" set to `null` when the record has none. No
      information is lost: `PayloadJob` recovers the record. */
  function InsertPayload(j: Job): (row: map<string, Value>)
    ensures row.Keys == PayloadColumns
    ensures row["query"] == Null <==> j.query == None
    ensures PayloadJob(row) == Some(j)
  {
    map[
      "title" := Str(j.title),
      "company" := Str(j.company),
      "location" := Str(j.location),
      "description" := Str(j.description),
      "source" := Str(j.source),
      "query" := match j.query { case Some(q) => Str(q) case None => Null }]
  }

  /** Reads a record back from a payload; `None` when a text column is
      missing or `null`. */
  function PayloadJob(row: map<string, Value>): Option<Job> {
    if forall c :: c in PayloadColumns - {"query"} ==> c in row && row[c].Str? then
      Some(Job(
        row["title"].text,
        row["company"].text,
        row["location"].text,
        row["description"].text,
        row["source"].text,
        if "query" in row && row["query"].Str? then Some(row["query"].text) else None))
    else None
  }

  /** `insert_jobs` sends one payload per record, in order: exactly the six
      columns, "query" null exactly when the record has none, and reading
      each payload back gives its record. */
  function InsertPayloads(jobs: seq<Job>): (rows: seq<map<string, Value>>)
    ensures |rows| == |jobs|
    ensures forall i :: 0 <= i < |rows| ==> rows[i].Keys == PayloadColumns
    ensures forall i :: 0 <= i < |rows| ==> (rows[i]["query"] == Null <==> jobs[i].query == None)
    ensures forall i :: 0 <= i < |rows| ==> PayloadJob(rows[i]) == Some(jobs[i])
  {
    seq(|jobs|, i requires 0 <= i < |jobs| => InsertPayload(jobs[i]))
  }

  /** The records the driver keeps for the fetch results `runs`: the whole
      batch, deduplicated. */
  function PipelineJobs(runs: seq<QueryRun>): seq<Job> {
    RemoveDuplicates(AssembleBatch(runs))
  }

  /** The payloads the driver inserts for the fetch results `runs`. */
  function PipelinePayloads(runs: seq<QueryRun>): seq<map<string, Value>> {
    InsertPayloads(PipelineJobs(runs))
  }

  /** What the driver hands to the store: at most 20 records per search term,
      never more than the batch it fetched, each one a fetched record tagged
      with one of the search terms, no two with the same case-folded title,
      company and location, and one payload per record. */
  lemma PipelineRows(runs: seq<QueryRun>)
    ensures |PipelineJobs(runs)| <= |AssembleBatch(runs)| <= 2 * Limit * |runs|
    ensures forall j :: j in PipelineJobs(runs) ==>
      j in AssembleBatch(runs) && j.query.Some?
      && exists k :: 0 <= k < |runs| && runs[k].query == j.query.value
    ensures NoDupKeys(PipelineJobs(runs))
    ensures |PipelinePayloads(runs)| == |PipelineJobs(runs)|
  {
    var batch := AssembleBatch(runs);
    AssembleBatchTagged(runs);
    RemoveDuplicatesCount(batch);
    SubsequenceShorter(RemoveDuplicates(batch), batch);
  }

  /** The driver's own run: one fetch pair per term of `Queries`, in order.
      At most 100 records reach the store, each tagged with one of the five
      terms. */
  lemma DriverRun(runs: seq<QueryRun>)
    requires |runs| == |Queries|
    requires forall k :: 0 <= k < |runs| ==> runs[k].query == Queries[k]
    ensures |PipelineJobs(runs)| <= 100
    ensures forall j :: j in PipelineJobs(runs) ==> j.query.Some? && j.query.value in Queries
  {
    PipelineRows(runs);
  }
}
