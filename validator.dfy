/**
 * The content-type validator proper: the HEAD probe of one URL and its
 * classification (`validateUrl`), the batched walk over the resolved URL
 * list with its progress reports (`validateSitemap`), the summary counts
 * and the command line's exit status.
 *
 * The HEAD request is an input: `net` gives, for each URL, either the
 * response's content-type header (absent or present) or the message of
 * the error the request threw. Each batch's `Promise.all` is run one URL
 * after the other; every result still lands in its own slot, in input
 * order.
 */
module Validator {
  import opened Common
  import opened Text
  import opened SitemapTree

  /** The outcome of one HEAD request. */
  datatype Probe = Responded(contentType: Option<string>) | Threw(message: string)

  datatype ValidationResult = ValidationResult(url: string, success: bool, contentType: Option<string>, error: Option<string>)

  /** One `onProgress(result, current, total)` call. */
  datatype Progress = Progress(result: ValidationResult, current: nat, total: nat)

  datatype Summary = Summary(total: nat, successful: nat, failed: int, results: seq<ValidationResult>)

  const BatchSize: nat := 10
  const MarkdownType := "text/markdown"

  /** The header, lower-cased, starts with `text/markdown`. */
  predicate IsMarkdown(contentType: string)
  {
    StartsWith(Lower(contentType), MarkdownType)
  }

  /**
   * `validateUrl`: success exactly when the response carries a content-type
   * that is markdown; the header is recorded as observed; a thrown error
   * becomes a failed result with no content-type and the error's message,
   * never an exception.
   */
  function ValidateUrl(url: string, probe: Probe): (r: ValidationResult)
    ensures r.url == url
    ensures r.success <==> probe.Responded? && probe.contentType.Some? && IsMarkdown(probe.contentType.value)
    ensures probe.Responded? ==> r.contentType == probe.contentType && r.error.None?
    ensures probe.Threw? ==> !r.success && r.contentType.None? && r.error == Some(probe.message)
  {
    match probe
    case Responded(contentType) =>
      ValidationResult(url, contentType.Some? && IsMarkdown(contentType.value), contentType, None)
    case Threw(message) =>
      ValidationResult(url, false, None, Some(message))
  }

  /** The classification ignores ASCII case and looks only at the first thirteen characters. */
  lemma MarkdownPrefix(contentType: string)
    ensures IsMarkdown(contentType) <==>
              |contentType| >= |MarkdownType|
              && forall k :: 0 <= k < |MarkdownType| ==> LowerChar(contentType[k]) == MarkdownType[k]
  {
    if |contentType| >= |MarkdownType| {
      var low := Lower(contentType);
      assert forall k :: 0 <= k < |MarkdownType| ==> low[..|MarkdownType|][k] == LowerChar(contentType[k]);
    }
  }

  /** `text/markdown; charset=utf-8` and `Text/Markdown` pass; `text/html` does not. */
  lemma MarkdownExamples()
    ensures IsMarkdown("text/markdown; charset=utf-8")
    ensures IsMarkdown("Text/Markdown")
    ensures !IsMarkdown("text/html")
  {
    MarkdownPrefix("text/markdown; charset=utf-8");
    MarkdownPrefix("Text/Markdown");
    MarkdownPrefix("text/html");
  }

  /**
   * `urls.slice(i, Math.min(i + batchSize, urls.length))` for
   * `i = 0, batchSize, 2 * batchSize, ...`: non-empty, at most `size` long,
   * all but the last exactly `size` long, and none at all for no URL.
   */
  function Batches(urls: seq<string>, size: nat): (bs: seq<seq<string>>)
    requires size > 0
    ensures |bs| > 0 <==> urls != []
    ensures forall k :: 0 <= k < |bs| ==> 0 < |bs[k]| <= size
    ensures forall k :: 0 <= k < |bs| - 1 ==> |bs[k]| == size
    decreases |urls|
  {
    if urls == [] then []
    else if |urls| <= size then [urls]
    else
      var rest := Batches(urls[size..], size);
      assert forall k :: 1 <= k < |rest| + 1 == |[urls[..size]] + rest| ==> ([urls[..size]] + rest)[k] == rest[k - 1];
      [urls[..size]] + rest
  }

  /** Batch `k` is the contiguous slice starting at `k * size`: no gap and no overlap between batches. */
  lemma BatchAt(urls: seq<string>, size: nat, k: nat)
    requires size > 0 && k < |Batches(urls, size)|
    ensures k * size < |urls|
    ensures Batches(urls, size)[k] == urls[k * size .. Min(k * size + size, |urls|)]
  {
    BatchAtOffset(urls, size, k);
    OffsetIsProduct(k, size);
  }

  /** `k * size`, by repeated addition, as the loop's `i += batchSize` computes it. */
  function Offset(k: nat, size: nat): nat
  {
    if k == 0 then 0 else Offset(k - 1, size) + size
  }

  lemma {:induction false} OffsetIsProduct(k: nat, size: nat)
    ensures Offset(k, size) == k * size
  {
    if k > 0 {
      OffsetIsProduct(k - 1, size);
      assert k * size == (k - 1) * size + size;
    }
  }

  lemma {:induction false} BatchAtOffset(urls: seq<string>, size: nat, k: nat)
    requires size > 0 && k < |Batches(urls, size)|
    ensures Offset(k, size) < |urls|
    ensures Batches(urls, size)[k] == urls[Offset(k, size) .. Min(Offset(k, size) + size, |urls|)]
    decreases |urls|
  {
    if k > 0 {
      assert |urls| > size;
      var rest := urls[size..];
      assert Batches(urls, size) == [urls[..size]] + Batches(rest, size);
      BatchAtOffset(rest, size, k - 1);
      var o := Offset(k - 1, size);
      assert Offset(k, size) == o + size;
      assert Batches(urls, size)[k] == rest[o .. Min(o + size, |rest|)];
      assert rest[o .. Min(o + size, |rest|)] == urls[o + size .. Min(o + size + size, |urls|)];
    } else if |urls| <= size {
      assert urls[0..|urls|] == urls;
    }
  }

  /** The batches, joined in order, are exactly the URL list. */
  lemma {:induction false} BatchesCover(urls: seq<string>, size: nat)
    requires size > 0
    ensures Concat(Batches(urls, size)) == urls
    decreases |urls|
  {
    if |urls| > size {
      var rest := urls[size..];
      BatchesCover(rest, size);
      assert Batches(urls, size) == [urls[..size]] + Batches(rest, size);
      assert Concat(Batches(urls, size)) == urls[..size] + Concat(Batches(rest, size));
      assert urls == urls[..size] + rest;
    } else if urls != [] {
      assert Concat([urls]) == urls + Concat([urls][1..]);
    }
  }

  /** `batch.map(validateUrl)` gathered by `Promise.all`: one result per URL, in submission order. */
  function BatchResults(batch: seq<string>, net: string -> Probe): (rs: seq<ValidationResult>)
    ensures |rs| == |batch|
    ensures forall b :: 0 <= b < |batch| ==> rs[b] == ValidateUrl(batch[b], net(batch[b]))
  {
    seq(|batch|, b requires 0 <= b < |batch| => ValidateUrl(batch[b], net(batch[b])))
  }

  /** The `onProgress(result, i + batchIndex + 1, urls.length)` calls of the batch at offset `i`. */
  function BatchProgress(rs: seq<ValidationResult>, i: nat, total: nat): (ps: seq<Progress>)
    ensures |ps| == |rs|
    ensures forall b :: 0 <= b < |rs| ==> ps[b] == Progress(rs[b], i + b + 1, total)
  {
    seq(|rs|, b requires 0 <= b < |rs| => Progress(rs[b], i + b + 1, total))
  }

  /** `results.filter((r) => r.success).length`. */
  function CountSuccesses(results: seq<ValidationResult>): (n: nat)
    ensures n <= |results|
  {
    if results == [] then 0
    else CountSuccesses(results[..|results| - 1]) + (if results[|results| - 1].success then 1 else 0)
  }

  /** The summary `validateSitemap` returns for a result list. */
  function Summarize(results: seq<ValidationResult>): (s: Summary)
    ensures s.total == |s.results| && s.results == results
    ensures 0 <= s.failed == s.total - s.successful
  {
    var successful := CountSuccesses(results);
    Summary(|results|, successful, |results| - successful, results)
  }

  /** No failure is counted exactly when every result is a success. */
  lemma {:induction false} NoFailuresIffAllSucceed(results: seq<ValidationResult>)
    ensures CountSuccesses(results) == |results| <==> forall k :: 0 <= k < |results| ==> results[k].success
  {
    if results != [] {
      var init := results[..|results| - 1];
      NoFailuresIffAllSucceed(init);
      assert forall k :: 0 <= k < |init| ==> init[k] == results[k];
    }
  }

  /** `results.filter((r) => !r.success)`: the failures listed in the report, in result order. */
  function Failures(results: seq<ValidationResult>): (fs: seq<ValidationResult>)
    ensures forall k :: 0 <= k < |fs| ==> !fs[k].success && fs[k] in results
  {
    if results == [] then []
    else
      var init := Failures(results[..|results| - 1]);
      var last := results[|results| - 1];
      assert forall x :: x in results[..|results| - 1] ==> x in results;
      if last.success then init else init + [last]
  }

  /** `failed` is the number of results the failure listing shows. */
  lemma {:induction false} FailedCountsFailures(results: seq<ValidationResult>)
    ensures Summarize(results).failed == |Failures(results)|
  {
    if results != [] {
      FailedCountsFailures(results[..|results| - 1]);
    }
  }

  /**
   * The batch loop of `validateSitemap`. `batches` lists the slices handed to
   * `Promise.all`; `progress` lists the `onProgress` calls in the order the
   * sequential model makes them.
   */
  method ValidateUrls(urls: seq<string>, net: string -> Probe)
    returns (summary: Summary, progress: seq<Progress>, batches: seq<seq<string>>)
    ensures batches == Batches(urls, BatchSize)
    ensures summary == Summarize(summary.results)
    ensures |summary.results| == |urls|
    ensures forall k :: 0 <= k < |urls| ==> summary.results[k] == ValidateUrl(urls[k], net(urls[k]))
    ensures |progress| == |urls|
    ensures forall k :: 0 <= k < |urls| ==> progress[k] == Progress(summary.results[k], k + 1, |urls|)
  {
    var results: seq<ValidationResult> := [];
    progress, batches := [], [];
    var i := 0;
    while i < |urls|
      invariant 0 <= i
      invariant i <= |urls| || (|urls| < i < |urls| + BatchSize)
      invariant |results| == Min(i, |urls|) && |progress| == |results|
      invariant forall k :: 0 <= k < |results| ==> results[k] == ValidateUrl(urls[k], net(urls[k]))
      invariant forall k :: 0 <= k < |results| ==> progress[k] == Progress(results[k], k + 1, |urls|)
      invariant batches + Batches(urls[Min(i, |urls|)..], BatchSize) == Batches(urls, BatchSize)
      decreases |urls| - i
    {
      var end := Min(i + BatchSize, |urls|);
      var batch := urls[i..end];
      var batchResults := BatchResults(batch, net);
      var batchProgress := BatchProgress(batchResults, i, |urls|);
      AppendBatch(urls, net, i, end, results, progress, batchResults, batchProgress);
      progress := progress + batchProgress;
      results := results + batchResults;
      BatchesStep(urls, i, end);
      batches := batches + [batch];
      i := i + BatchSize;
      assert Min(i, |urls|) == end;
    }
    summary := Summarize(results);
  }

  lemma AppendBatch(urls: seq<string>, net: string -> Probe, i: nat, end: nat,
                    results: seq<ValidationResult>, progress: seq<Progress>,
                    batchResults: seq<ValidationResult>, batchProgress: seq<Progress>)
    requires i <= end <= |urls| && |results| == i && |progress| == i
    requires forall k :: 0 <= k < i ==> results[k] == ValidateUrl(urls[k], net(urls[k]))
    requires forall k :: 0 <= k < i ==> progress[k] == Progress(results[k], k + 1, |urls|)
    requires batchResults == BatchResults(urls[i..end], net)
    requires batchProgress == BatchProgress(batchResults, i, |urls|)
    ensures forall k :: 0 <= k < end ==> (results + batchResults)[k] == ValidateUrl(urls[k], net(urls[k]))
    ensures forall k :: 0 <= k < end ==>
              (progress + batchProgress)[k] == Progress((results + batchResults)[k], k + 1, |urls|)
  {
    forall k | i <= k < end
      ensures (results + batchResults)[k] == ValidateUrl(urls[k], net(urls[k]))
      ensures (progress + batchProgress)[k] == Progress((results + batchResults)[k], k + 1, |urls|)
    {
      assert urls[i..end][k - i] == urls[k];
    }
  }

  lemma BatchesStep(urls: seq<string>, i: nat, end: nat)
    requires i < |urls| && end == Min(i + BatchSize, |urls|)
    ensures Batches(urls[i..], BatchSize) == [urls[i..end]] + Batches(urls[end..], BatchSize)
  {
    var rest := urls[i..];
    if |rest| > BatchSize {
      assert rest[..BatchSize] == urls[i..end];
      assert rest[BatchSize..] == urls[end..];
    } else {
      assert rest == urls[i..end];
      assert urls[end..] == [];
    }
  }

  /**
   * The progress counter of the item at position `b` of batch `j` is
   * `j * 10 + b + 1`, and that item's result is the one for that URL; the
   * counter lies in `1..|urls|` and the total is always `|urls|`.
   */
  lemma ProgressPerBatch(urls: seq<string>, net: string -> Probe, summary: Summary, progress: seq<Progress>, j: nat, b: nat)
    requires |summary.results| == |urls| && |progress| == |urls|
    requires forall k :: 0 <= k < |urls| ==> summary.results[k] == ValidateUrl(urls[k], net(urls[k]))
    requires forall k :: 0 <= k < |urls| ==> progress[k] == Progress(summary.results[k], k + 1, |urls|)
    requires j < |Batches(urls, BatchSize)| && b < |Batches(urls, BatchSize)[j]|
    ensures j * BatchSize + b < |urls|
    ensures progress[j * BatchSize + b].current == j * BatchSize + b + 1
    ensures 1 <= progress[j * BatchSize + b].current <= |urls| && progress[j * BatchSize + b].total == |urls|
    ensures progress[j * BatchSize + b].result.url == Batches(urls, BatchSize)[j][b]
  {
    BatchAt(urls, BatchSize, j);
  }

  /**
   * `validateSitemap`: resolve the root sitemap; a failure anywhere in the
   * tree is returned before any URL is probed; otherwise validate the URLs
   * in batches and summarise.
   */
  method ValidateSitemap(web: Web, fuel: nat, net: string -> Probe, sitemapUrl: string)
    returns (r: Result<Summary, Error>, progress: seq<Progress>)
    ensures Resolve(web, fuel, sitemapUrl).Err? ==> r == Err(Resolve(web, fuel, sitemapUrl).error) && progress == []
    ensures Resolve(web, fuel, sitemapUrl).Ok? ==>
              var urls := Resolve(web, fuel, sitemapUrl).value;
              r.Ok? && r.value == Summarize(r.value.results) && r.value.total == |urls|
              && (forall k :: 0 <= k < |urls| ==> r.value.results[k] == ValidateUrl(urls[k], net(urls[k])))
              && |progress| == |urls|
              && (forall k :: 0 <= k < |urls| ==> progress[k] == Progress(r.value.results[k], k + 1, |urls|))
  {
    var resolved := ResolveSitemap(web, fuel, sitemapUrl);
    if resolved.Err? {
      return Err(resolved.error), [];
    }
    var summary, events, batches := ValidateUrls(resolved.value, net);
    return Ok(summary), events;
  }

  /** The exit status for a finished run: non-zero exactly when something failed. */
  function ExitStatus(summary: Summary): int
  {
    if summary.failed > 0 then 1 else 0
  }

  /**
   * The command line: no (or an empty) sitemap argument is a usage error
   * with status 1; a resolution failure exits with 1; otherwise the status
   * is 0 exactly when every resolved URL serves markdown.
   */
  method Cli(args: seq<string>, web: Web, fuel: nat, net: string -> Probe) returns (exitCode: int)
    ensures exitCode == 0 || exitCode == 1
    ensures exitCode == 0 <==>
              |args| > 0 && args[0] != "" && Resolve(web, fuel, args[0]).Ok?
              && forall u :: u in Resolve(web, fuel, args[0]).value ==> ValidateUrl(u, net(u)).success
  {
    if |args| == 0 || args[0] == "" {
      return 1;
    }
    var r, progress := ValidateSitemap(web, fuel, net, args[0]);
    if r.Err? {
      return 1;
    }
    var urls := Resolve(web, fuel, args[0]).value;
    NoFailuresIffAllSucceed(r.value.results);
    assert (forall u :: u in urls ==> ValidateUrl(u, net(u)).success)
       <==> (forall k :: 0 <= k < |urls| ==> r.value.results[k].success);
    exitCode := ExitStatus(r.value);
  }
}
