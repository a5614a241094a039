/**
 `remove_duplicates`: one pass over a batch, keeping the first record seen for
 each identity key and dropping every later one, in input order.
 */
module Dedup {
  import opened Jobs

  /** The records of `jobs` whose key is neither in `seen` nor carried by an
      earlier record of `jobs`; `seen` is the accumulator of the source's loop. */
  function DedupFrom(jobs: seq<Job>, seen: set<JobKey>): (r: seq<Job>)
    ensures NoDupKeys(r)
    ensures KeysOf(r) !! seen
    ensures KeysOf(r) + seen == KeysOf(jobs) + seen
    ensures IsSubsequence(r, jobs)
    decreases |jobs|
  {
    if |jobs| == 0 then []
    else
      var x := jobs[0];
      var rest := jobs[1..];
      assert jobs == [x] + rest;
      KeysOfCons(x, rest);
      if Key(x) in seen then DedupFrom(rest, seen)
      else
        var tail := DedupFrom(rest, seen + {Key(x)});
        KeysOfCons(x, tail);
        ConsNoDupKeys(x, tail);
        assert ([x] + tail)[1..] == tail;
        [x] + tail
  }

  /** Python's `remove_duplicates(jobs)`: the seen-set starts empty. */
  function RemoveDuplicates(jobs: seq<Job>): (r: seq<Job>)
    ensures NoDupKeys(r)
    ensures KeysOf(r) == KeysOf(jobs)
    ensures IsSubsequence(r, jobs)
  {
    DedupFrom(jobs, {})
  }

  /** The loop of `remove_duplicates` as written: a seen-set and an output list,
      one record inspected per iteration. It computes `RemoveDuplicates`. */
  method RemoveDuplicatesLoop(jobs: seq<Job>) returns (unique: seq<Job>)
    ensures unique == RemoveDuplicates(jobs)
  {
    var seen: set<JobKey> := {};
    unique := [];
    var i := 0;
    assert jobs[i..] == jobs;
    while i < |jobs|
      invariant 0 <= i <= |jobs|
      invariant seen == KeysOf(unique)
      invariant unique + DedupFrom(jobs[i..], seen) == RemoveDuplicates(jobs)
    {
      var job := jobs[i];
      var key := Key(job);
      DedupFromStep(jobs, i, seen, unique);
      if key !in seen {
        KeysOfSnoc(unique, job);
        seen := seen + {key};
        unique := unique + [job];
      }
      i := i + 1;
    }
    assert jobs[i..] == [];
  }

  /** One iteration of the loop: the remaining work unfolds by one record. */
  lemma DedupFromStep(jobs: seq<Job>, i: int, seen: set<JobKey>, done: seq<Job>)
    requires 0 <= i < |jobs|
    ensures Key(jobs[i]) in seen ==>
      done + DedupFrom(jobs[i..], seen) == done + DedupFrom(jobs[i + 1..], seen)
    ensures Key(jobs[i]) !in seen ==>
      done + DedupFrom(jobs[i..], seen) == (done + [jobs[i]]) + DedupFrom(jobs[i + 1..], seen + {Key(jobs[i])})
  {
    assert jobs[i..][0] == jobs[i] && jobs[i..][1..] == jobs[i + 1..];
  }

  /** Position `i` holds the first record of `jobs` with its key. */
  predicate IsFirst(jobs: seq<Job>, i: int) {
    0 <= i < |jobs| && forall k :: 0 <= k < i ==> Key(jobs[k]) != Key(jobs[i])
  }

  lemma {:induction false} DedupFromFirstWins(jobs: seq<Job>, seen: set<JobKey>, i: int)
    requires IsFirst(jobs, i)
    ensures Key(jobs[i]) !in seen ==> jobs[i] in DedupFrom(jobs, seen)
    ensures forall r :: r in DedupFrom(jobs, seen) && Key(r) == Key(jobs[i]) ==> r == jobs[i]
    decreases |jobs|
  {
    var x := jobs[0];
    var rest := jobs[1..];
    var out := DedupFrom(jobs, seen);
    var seen' := if Key(x) in seen then seen else seen + {Key(x)};
    var tail := DedupFrom(rest, seen');
    assert out == if Key(x) in seen then tail else [x] + tail;
    if i > 0 {
      assert IsFirst(rest, i - 1) by {
        forall k | 0 <= k < i - 1 ensures Key(rest[k]) != Key(rest[i - 1]) {
          assert rest[k] == jobs[k + 1];
        }
      }
      assert rest[i - 1] == jobs[i];
      DedupFromFirstWins(rest, seen', i - 1);
      assert Key(x) != Key(jobs[i]);
    }
    forall r | r in out && Key(r) == Key(jobs[i]) ensures r == jobs[i] {
      if r in tail {
        assert Key(r) in KeysOf(tail);
        assert i != 0;
      }
    }
  }

  /** For every key of the batch, the record `remove_duplicates` keeps is the
      first input record with that key, unchanged (original casing included). */
  lemma FirstOccurrenceWins(jobs: seq<Job>)
    ensures forall i :: IsFirst(jobs, i) ==> jobs[i] in RemoveDuplicates(jobs)
    ensures forall i, r :: IsFirst(jobs, i) && r in RemoveDuplicates(jobs) && Key(r) == Key(jobs[i]) ==> r == jobs[i]
  {
    forall i | IsFirst(jobs, i)
      ensures jobs[i] in RemoveDuplicates(jobs)
      ensures forall r :: r in RemoveDuplicates(jobs) && Key(r) == Key(jobs[i]) ==> r == jobs[i]
    {
      DedupFromFirstWins(jobs, {}, i);
    }
  }

  /** The reference for `remove_duplicates`: the records `jobs[i]` with
      `IsFirst(jobs, i)`, in increasing `i`. */
  function Firsts(jobs: seq<Job>): seq<Job>
    decreases |jobs|
  {
    if |jobs| == 0 then []
    else
      var n := |jobs| - 1;
      Firsts(jobs[..n]) + (if IsFirst(jobs, n) then [jobs[n]] else [])
  }

  /** Appending one record to the input of the accumulator pass appends it to
      the output exactly when its key is neither seen nor earlier in the input. */
  lemma {:induction false} DedupFromSnoc(jobs: seq<Job>, x: Job, seen: set<JobKey>)
    ensures DedupFrom(jobs + [x], seen) ==
      DedupFrom(jobs, seen) + (if Key(x) in seen + KeysOf(jobs) then [] else [x])
    decreases |jobs|
  {
    if |jobs| == 0 {
      assert jobs + [x] == [x] + [];
      DedupFromCons(x, [], seen);
      assert KeysOf(jobs) == {};
    } else {
      var y := jobs[0];
      var rest := jobs[1..];
      var seen' := if Key(y) in seen then seen else seen + {Key(y)};
      var tail: seq<Job> := if Key(x) in seen + KeysOf(jobs) then [] else [x];
      assert jobs + [x] == [y] + (rest + [x]);
      assert jobs == [y] + rest;
      KeysOfCons(y, rest);
      assert seen' + KeysOf(rest) == seen + KeysOf(jobs);
      DedupFromSnoc(rest, x, seen');
      assert DedupFrom(rest + [x], seen') == DedupFrom(rest, seen') + tail;
      DedupFromCons(y, rest + [x], seen);
      DedupFromCons(y, rest, seen);
      if Key(y) in seen {
        assert DedupFrom(jobs + [x], seen) == DedupFrom(rest + [x], seen);
      } else {
        var kept := DedupFrom(rest, seen');
        assert DedupFrom(jobs + [x], seen) == [y] + (kept + tail);
        AppendAssoc([y], kept, tail);
      }
    }
  }

  /** Concatenation is associative; stated apart so that the step above does
      not have to rediscover it among the facts about `DedupFrom`. */
  lemma AppendAssoc<T>(a: seq<T>, b: seq<T>, c: seq<T>)
    ensures a + (b + c) == (a + b) + c
  {
  }

  /** One step of the accumulator pass, from the front. */
  lemma DedupFromCons(y: Job, rest: seq<Job>, seen: set<JobKey>)
    ensures DedupFrom([y] + rest, seen) ==
      if Key(y) in seen then DedupFrom(rest, seen) else [y] + DedupFrom(rest, seen + {Key(y)})
  {
    assert ([y] + rest)[0] == y && ([y] + rest)[1..] == rest;
  }

  /** The last record is a first occurrence exactly when its key is not among
      the keys of the records before it. */
  lemma LastIsFirst(jobs: seq<Job>)
    requires |jobs| > 0
    ensures IsFirst(jobs, |jobs| - 1) <==> Key(jobs[|jobs| - 1]) !in KeysOf(jobs[..|jobs| - 1])
  {
    var n := |jobs| - 1;
    var init := jobs[..n];
    if Key(jobs[n]) in KeysOf(init) {
      var j :| j in init && Key(j) == Key(jobs[n]);
      var k :| 0 <= k < n && init[k] == j;
      assert Key(jobs[k]) == Key(jobs[n]);
    } else {
      forall k | 0 <= k < n ensures Key(jobs[k]) != Key(jobs[n]) {
        assert jobs[k] == init[k] && init[k] in init;
      }
    }
  }

  /** `remove_duplicates` returns exactly the first occurrences of the batch,
      in the order they occur in the input. */
  lemma {:induction false} RemoveDuplicatesIsFirsts(jobs: seq<Job>)
    ensures RemoveDuplicates(jobs) == Firsts(jobs)
    decreases |jobs|
  {
    if |jobs| > 0 {
      var n := |jobs| - 1;
      var init := jobs[..n];
      assert jobs == init + [jobs[n]];
      DedupFromSnoc(init, jobs[n], {});
      assert {} + KeysOf(init) == KeysOf(init);
      LastIsFirst(jobs);
      RemoveDuplicatesIsFirsts(init);
    }
  }

  /** A batch whose keys are already distinct, and disjoint from `seen`, passes
      through unchanged. */
  lemma {:induction false} DedupFromKeepsDistinct(jobs: seq<Job>, seen: set<JobKey>)
    requires NoDupKeys(jobs)
    requires KeysOf(jobs) !! seen
    ensures DedupFrom(jobs, seen) == jobs
    decreases |jobs|
  {
    if |jobs| > 0 {
      var x := jobs[0];
      var rest := jobs[1..];
      assert Key(x) in KeysOf(jobs);
      assert Key(x) !in KeysOf(rest) by {
        forall j | j in rest ensures Key(j) != Key(x) {
          var k :| 0 <= k < |rest| && rest[k] == j;
          assert jobs[k + 1] == j;
        }
      }
      assert KeysOf(rest) <= KeysOf(jobs);
      DedupFromKeepsDistinct(rest, seen + {Key(x)});
      assert [x] + rest == jobs;
    }
  }

  /** `remove_duplicates` is idempotent. */
  lemma RemoveDuplicatesIdempotent(jobs: seq<Job>)
    ensures RemoveDuplicates(RemoveDuplicates(jobs)) == RemoveDuplicates(jobs)
  {
    DedupFromKeepsDistinct(RemoveDuplicates(jobs), {});
  }

  /** A batch with distinct keys has as many records as keys. */
  lemma {:induction false} DistinctKeysCount(jobs: seq<Job>)
    requires NoDupKeys(jobs)
    ensures |KeysOf(jobs)| == |jobs|
    decreases |jobs|
  {
    if |jobs| > 0 {
      var n := |jobs| - 1;
      var init := jobs[..n];
      assert KeysOf(jobs) == KeysOf(init) + {Key(jobs[n])} by {
        assert forall j :: j in jobs <==> j in init || j == jobs[n];
      }
      assert Key(jobs[n]) !in KeysOf(init) by {
        forall j | j in init ensures Key(j) != Key(jobs[n]) {
          var k :| 0 <= k < n && init[k] == j;
        }
      }
      DistinctKeysCount(init);
    }
  }

  /** The number of records `remove_duplicates` returns is the number of
      distinct identity keys in its input, and never more than its input. */
  lemma RemoveDuplicatesCount(jobs: seq<Job>)
    ensures |RemoveDuplicates(jobs)| == |KeysOf(jobs)|
    ensures |RemoveDuplicates(jobs)| <= |jobs|
  {
    DistinctKeysCount(RemoveDuplicates(jobs));
    SubsequenceShorter(RemoveDuplicates(jobs), jobs);
  }
}
