/**
 The canonical job record the two adapters produce and the identity key used
 to collapse duplicates.
 */
module Jobs {
  import opened Text

  /** A value that may be absent: Python's `None`, or a missing dictionary key. */
  datatype Option<+T> = None | Some(value: T)

  /** One scraped job, as the dictionaries built by the adapters hold it.
      `query` is `None` while the record has no "query" key; the orchestrator
      sets it to the search term that produced the record. */
  datatype Job = Job(
    title: string,
    company: string,
    location: string,
    description: string,
    source: string,
    query: Option<string>)

  /** The identity of a job within one batch: its title, company and location,
      each case-folded. */
  datatype JobKey = JobKey(title: string, company: string, location: string)

  function Key(j: Job): (k: JobKey)
    ensures |k.title| == |j.title| && |k.company| == |j.company| && |k.location| == |j.location|
    ensures forall i :: 0 <= i < |k.title| ==> !IsUpper(k.title[i])
    ensures forall i :: 0 <= i < |k.company| ==> !IsUpper(k.company[i])
    ensures forall i :: 0 <= i < |k.location| ==> !IsUpper(k.location[i])
  {
    JobKey(Lower(j.title), Lower(j.company), Lower(j.location))
  }

  /** The key ignores casing and every field but title, company and location:
      case-folding those three fields, or changing description, source or
      query, leaves the key as it was. */
  lemma KeyIgnoresCaseAndOtherFields(j: Job, description: string, source: string, query: Option<string>)
    ensures Key(j.(title := Lower(j.title), company := Lower(j.company), location := Lower(j.location))) == Key(j)
    ensures Key(j.(description := description, source := source, query := query)) == Key(j)
  {
    LowerIdempotent(j.title);
    LowerIdempotent(j.company);
    LowerIdempotent(j.location);
  }

  /** Two records share a key exactly when their titles, companies and
      locations agree up to letter case. */
  lemma KeyEqIff(a: Job, b: Job)
    ensures Key(a) == Key(b) <==>
      SameIgnoringCase(a.title, b.title)
      && SameIgnoringCase(a.company, b.company)
      && SameIgnoringCase(a.location, b.location)
  {
    LowerEqIff(a.title, b.title);
    LowerEqIff(a.company, b.company);
    LowerEqIff(a.location, b.location);
  }

  /** The identity keys of all records of `jobs`. */
  function KeysOf(jobs: seq<Job>): set<JobKey> {
    set j | j in jobs :: Key(j)
  }

  /** No two records of `jobs` share an identity key. */
  predicate NoDupKeys(jobs: seq<Job>) {
    forall i, k :: 0 <= i < k < |jobs| ==> Key(jobs[i]) != Key(jobs[k])
  }

  lemma KeysOfCons(x: Job, s: seq<Job>)
    ensures KeysOf([x] + s) == {Key(x)} + KeysOf(s)
  {
    assert forall j :: j in [x] + s <==> j == x || j in s;
  }

  lemma KeysOfSnoc(s: seq<Job>, x: Job)
    ensures KeysOf(s + [x]) == KeysOf(s) + {Key(x)}
  {
    assert forall j :: j in s + [x] <==> j in s || j == x;
  }

  lemma ConsNoDupKeys(x: Job, s: seq<Job>)
    requires NoDupKeys(s)
    requires Key(x) !in KeysOf(s)
    ensures NoDupKeys([x] + s)
  {
    assert forall k :: 0 <= k < |s| ==> Key(s[k]) in KeysOf(s);
    forall i, k | 0 <= i < k < |[x] + s| ensures Key(([x] + s)[i]) != Key(([x] + s)[k]) {
      assert ([x] + s)[k] == s[k - 1];
      if i > 0 {
        assert ([x] + s)[i] == s[i - 1];
      }
    }
  }

  /** `a` is `b` with some records left out, the rest unchanged and in order. */
  predicate IsSubsequence<T(==)>(a: seq<T>, b: seq<T>)
    decreases |b|
  {
    if |a| == 0 then true
    else if |b| == 0 then false
    else (a[0] == b[0] && IsSubsequence(a[1..], b[1..])) || IsSubsequence(a, b[1..])
  }

  lemma {:induction false} SubsequenceShorter<T>(a: seq<T>, b: seq<T>)
    requires IsSubsequence(a, b)
    ensures |a| <= |b|
    ensures forall x :: x in a ==> x in b
    decreases |b|
  {
    if |a| == 0 {
    } else if a[0] == b[0] && IsSubsequence(a[1..], b[1..]) {
      SubsequenceShorter(a[1..], b[1..]);
      forall x | x in a ensures x in b {
        if x != a[0] {
          assert x in a[1..];
        }
      }
    } else {
      SubsequenceShorter(a, b[1..]);
    }
  }
}
