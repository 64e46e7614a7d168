/**
 * Batched enrichment: repository URLs are fetched in consecutive slices of `batchSize`, the
 * results are collected in URL order with no details marking a failure, and a pause separates
 * consecutive slices.
 */
module Enricher {
  import opened Wrappers
  import opened RepositoryFetcher
  import Scraper

  const DefaultBatchSize: nat := 3
  const DefaultDelayMs: nat := 500

  lemma MultipleBelow(k: int, d: int)
    requires d > 0 && -d < k * d < d
    ensures k == 0
  {
  }

  lemma DivisionUnique(x: nat, d: nat, q: nat)
    requires d > 0 && q * d <= x < (q + 1) * d
    ensures x / d == q
  {
    var q' := x / d;
    assert (q' - q) * d == (x - q * d) - x % d;
    MultipleBelow(q' - q, d);
  }

  /** The number of slices of `size` needed to cover `n` items: the ceiling of n / size. */
  lemma CeilingOfBounds(n: nat, size: nat, batches: nat)
    requires size >= 1 && n > 0
    requires (batches - 1) * size < n <= batches * size
    ensures batches == (n + size - 1) / size
  {
    DivisionUnique(n + size - 1, size, batches);
  }

  /** The number of results that carry details (`results.filter(r => r !== null).length`). */
  function SuccessCount(results: seq<Option<Details>>): (c: nat)
    ensures c <= |results|
  {
    if results == [] then 0
    else SuccessCount(results[..|results| - 1]) + (if results[|results| - 1].Some? then 1 else 0)
  }

  /** The number of the first `n` requests that came back with a success status. */
  function OkResponses(respond: nat -> DetailOutcome, n: nat): nat {
    if n == 0 then 0
    else
      var o := respond(n - 1);
      OkResponses(respond, n - 1) + (if o.DetailResponded? && Scraper.IsOk(o.status) then 1 else 0)
  }

  /** The reported success count is the number of pages that came back with a success status. */
  lemma {:induction false} SuccessCountIsOkResponses(urls: seq<string>, respond: nat -> DetailOutcome,
                                                   localize: string -> string, results: seq<Option<Details>>)
    requires |results| == |urls|
    requires forall k :: 0 <= k < |urls| ==> results[k] == DetailsResult(urls[k], respond(k), localize)
    ensures SuccessCount(results) == OkResponses(respond, |urls|)
    decreases |urls|
  {
    if urls != [] {
      var n := |urls| - 1;
      SuccessCountIsOkResponses(urls[..n], respond, localize, results[..n]);
      assert results[..n] == results[..|results| - 1];
    }
  }

  /**
   * The counters after `batches` slices of `size` out of `n` items: the next slice starts at
   * `i`, every slice started before the end, and a pause followed each slice but the last.
   */
  ghost predicate Progress(i: nat, batches: nat, pauses: nat, size: nat, n: nat) {
    && i == batches * size
    && (batches > 0 ==> (batches - 1) * size < n)
    && (batches == 0 ==> pauses == 0)
    && (batches > 0 ==> pauses == (if i < n then batches else batches - 1))
  }

  /** One more slice keeps the counters in step. */
  lemma ProgressStep(i: nat, batches: nat, pauses: nat, size: nat, n: nat)
    requires Progress(i, batches, pauses, size, n) && i < n
    ensures Progress(i + size, batches + 1, if i + size < n then pauses + 1 else pauses, size, n)
  {
    assert (batches + 1) * size == i + size;
  }

  /** The result for every URL, in URL order, when the request for the k-th URL ends as `respond(k)`. */
  function Expected(urls: seq<string>, respond: nat -> DetailOutcome, localize: string -> string)
    : seq<Option<Details>>
  {
    seq(|urls|, k requires 0 <= k < |urls| => DetailsResult(urls[k], respond(k), localize))
  }

  /** One slice of `fetchRepositoriesInBatches`: the details of `urls[from..to]`, in order. */
  method FetchBatch(urls: seq<string>, from: nat, to: nat, respond: nat -> DetailOutcome,
                    localize: string -> string)
    returns (fetched: seq<Option<Details>>)
    requires from <= to <= |urls|
    ensures fetched == Expected(urls, respond, localize)[from..to]
  {
    ghost var expected := Expected(urls, respond, localize);
    fetched := [];
    for j := from to to
      invariant fetched == expected[from..j]
    {
      var details := FetchRepositoryDetails(urls[j], respond(j), localize);
      assert details == expected[j];
      assert expected[from..j + 1] == expected[from..j] + [expected[j]];
      fetched := fetched + [details];
    }
  }

  /**
   * `fetchRepositoriesInBatches` with the outcome of the request for the k-th URL given by
   * `respond(k)`: one result per URL, aligned with the URLs; the number of slices is the
   * ceiling of n / batchSize; and one pause fewer than slices.
   */
  method FetchRepositoriesInBatches(urls: seq<string>, batchSize: nat, respond: nat -> DetailOutcome,
                                    localize: string -> string)
    returns (results: seq<Option<Details>>, batches: nat, pauses: nat)
    requires batchSize >= 1
    ensures |results| == |urls|
    ensures forall k :: 0 <= k < |urls| ==> results[k] == DetailsResult(urls[k], respond(k), localize)
    ensures urls == [] ==> batches == 0 && pauses == 0
    ensures urls != [] ==> (batches - 1) * batchSize < |urls| <= batches * batchSize
    ensures urls != [] ==> batches == (|urls| + batchSize - 1) / batchSize && pauses == batches - 1
  {
    var n := |urls|;
    ghost var expected := Expected(urls, respond, localize);
    results := [];
    batches := 0;
    pauses := 0;
    var i := 0;
    while i < n
      invariant Progress(i, batches, pauses, batchSize, n)
      invariant results == expected[..Min(i, n)]
      decreases n - i
    {
      var end := Min(i + batchSize, n);
      var fetched := FetchBatch(urls, i, end, respond, localize);
      assert expected[..end] == expected[..i] + expected[i..end];
      results := results + fetched;
      ProgressStep(i, batches, pauses, batchSize, n);
      batches := batches + 1;
      if i + batchSize < n {
        pauses := pauses + 1;
      }
      i := i + batchSize;
    }
    assert results == expected[..n] == expected;
    if n > 0 {
      CeilingOfBounds(n, batchSize, batches);
    }
  }

  /**
   * A call with the default arguments: batches of three URLs and 500 ms between consecutive
   * batches, so the total waiting time is one delay fewer than the number of batches.
   */
  method FetchRepositoriesWithDefaults(urls: seq<string>, respond: nat -> DetailOutcome,
                                       localize: string -> string)
    returns (results: seq<Option<Details>>, batches: nat, pausedMs: nat)
    ensures |results| == |urls|
    ensures forall k :: 0 <= k < |urls| ==> results[k] == DetailsResult(urls[k], respond(k), localize)
    ensures urls == [] ==> batches == 0 && pausedMs == 0
    ensures urls != [] ==> batches == (|urls| + 2) / 3 && pausedMs == (batches - 1) * 500
  {
    var pauses;
    results, batches, pauses := FetchRepositoriesInBatches(urls, DefaultBatchSize, respond, localize);
    pausedMs := pauses * DefaultDelayMs;
  }
}
