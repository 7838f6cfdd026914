/** Result aggregation and rendering (main.go's outputResults,
    outputTextResults and outputJSONResults), with printing replaced by the
    lines and records that would be printed and a flag saying whether the
    output file would be written. */
module Report {
  import opened Types

  /** A result that text mode reports: no error, and vulnerable. */
  predicate IsFinding(r: ScanResult) {
    r.error.None? && r.vulnerable
  }

  /** The text line of one finding. */
  function FindingLine(r: ScanResult): string {
    r.url + " [VULNERABLE : " + r.vulnType + "]"
  }

  /** The lines of the findings among `rs`, in the order of `rs`. */
  function FindingLines(rs: seq<ScanResult>): seq<string>
    decreases |rs|
  {
    if rs == [] then []
    else
      var r := rs[|rs| - 1];
      FindingLines(rs[..|rs| - 1]) + if IsFinding(r) then [FindingLine(r)] else []
  }

  /** The number of findings among `rs`, counted from the front. */
  function CountFindings(rs: seq<ScanResult>): nat
    decreases |rs|
  {
    if rs == [] then 0 else (if IsFinding(rs[0]) then 1 else 0) + CountFindings(rs[1..])
  }

  lemma {:induction false} CountFindingsAppend(a: seq<ScanResult>, b: seq<ScanResult>)
    ensures CountFindings(a + b) == CountFindings(a) + CountFindings(b)
    decreases |a|
  {
    if a == [] {
      assert a + b == b;
    } else {
      assert (a + b)[1..] == a[1..] + b;
      CountFindingsAppend(a[1..], b);
    }
  }

  /** Finding lines distribute over concatenation: the lines of a longer
      result list extend those of its prefix, so line order is result
      order. */
  lemma {:induction false} FindingLinesAppend(a: seq<ScanResult>, b: seq<ScanResult>)
    ensures FindingLines(a + b) == FindingLines(a) + FindingLines(b)
    decreases |b|
  {
    if b == [] {
      assert a + b == a;
    } else {
      var init := b[..|b| - 1];
      assert (a + b)[..|a + b| - 1] == a + init;
      FindingLinesAppend(a, init);
    }
  }

  /** One line per finding, and a line for nothing else: the number of lines
      is the number of findings, every line is the line of a finding of
      `rs`, and every finding of `rs` has its line. */
  lemma {:induction false} FindingLinesSpec(rs: seq<ScanResult>)
    ensures |FindingLines(rs)| == CountFindings(rs)
    ensures forall line :: line in FindingLines(rs) ==> exists r :: r in rs && IsFinding(r) && line == FindingLine(r)
    ensures forall r :: r in rs && IsFinding(r) ==> FindingLine(r) in FindingLines(rs)
    decreases |rs|
  {
    if rs != [] {
      var init, r := rs[..|rs| - 1], rs[|rs| - 1];
      assert rs == init + [r];
      FindingLinesSpec(init);
      CountFindingsAppend(init, [r]);
    }
  }

  /** outputTextResults: the finding lines in result order, the number of
      findings, and whether the lines are appended to the output file (only
      when a file is configured and there is at least one line). Without
      verbose output these lines are also exactly what is printed. */
  method OutputTextResults(config: Config, results: seq<ScanResult>)
    returns (outputLines: seq<string>, vulnerableCount: int, saveRequested: bool)
    ensures outputLines == FindingLines(results)
    ensures vulnerableCount == |outputLines| == CountFindings(results)
    ensures saveRequested <==> config.outputFile != "" && |outputLines| > 0
  {
    outputLines := [];
    vulnerableCount := 0;
    for i := 0 to |results|
      invariant outputLines == FindingLines(results[..i])
      invariant vulnerableCount == CountFindings(results[..i])
    {
      var result := results[i];
      assert results[..i + 1] == results[..i] + [result];
      CountFindingsAppend(results[..i], [result]);
      if result.error.Some? {
        continue;
      }
      if result.vulnerable {
        vulnerableCount := vulnerableCount + 1;
        var line := result.url + " [VULNERABLE : " + result.vulnType + "]";
        outputLines := outputLines + [line];
      }
    }
    assert results[..|results|] == results;
    FindingLinesSpec(results);
    saveRequested := config.outputFile != "" && |outputLines| > 0;
  }

  /** One record of the JSON document (main.go's JSONResult). "" stands for
      a field that `omitempty` leaves out. */
  datatype JsonResult = JsonResult(url: string, vulnerable: bool, vulnType: string, errorMessage: string)
  datatype JsonSummary = JsonSummary(totalScanned: int, vulnerableCount: int, concurrency: int)
  datatype JsonOutput = JsonOutput(summary: JsonSummary, results: seq<JsonResult>)

  /** The record of one result: an error result carries its message and no
      kind; a finding carries its kind and no message; any other result
      carries neither. The URL and the vulnerable flag are copied as they
      are. */
  function ToJsonResult(r: ScanResult): (j: JsonResult)
    ensures j.url == r.url && j.vulnerable == r.vulnerable
    ensures r.error.Some? ==> j.errorMessage == r.error.value && j.vulnType == ""
    ensures r.error.None? ==> j.errorMessage == "" && j.vulnType == (if r.vulnerable then r.vulnType else "")
  {
    match r.error
    case Some(message) => JsonResult(r.url, r.vulnerable, "", message)
    case None => JsonResult(r.url, r.vulnerable, if r.vulnerable then r.vulnType else "", "")
  }

  /** outputJSONResults: one record per result in result order, a summary of
      the total, the number of findings and the configured concurrency, and
      whether the output file is overwritten (whenever one is configured). */
  method OutputJsonResults(config: Config, results: seq<ScanResult>)
    returns (output: JsonOutput, saveRequested: bool)
    ensures |output.results| == |results|
    ensures forall i :: 0 <= i < |results| ==> output.results[i] == ToJsonResult(results[i])
    ensures output.summary == JsonSummary(|results|, CountFindings(results), config.concurrency)
    ensures saveRequested <==> config.outputFile != ""
  {
    var jsonResults: seq<JsonResult> := [];
    var vulnerableCount := 0;
    for i := 0 to |results|
      invariant |jsonResults| == i
      invariant forall k :: 0 <= k < i ==> jsonResults[k] == ToJsonResult(results[k])
      invariant vulnerableCount == CountFindings(results[..i])
    {
      var result := results[i];
      assert results[..i + 1] == results[..i] + [result];
      CountFindingsAppend(results[..i], [result]);
      var jsonResult := JsonResult(result.url, result.vulnerable, "", "");
      if result.error.Some? {
        jsonResult := jsonResult.(errorMessage := result.error.value);
      } else if result.vulnerable {
        jsonResult := jsonResult.(vulnType := result.vulnType);
        vulnerableCount := vulnerableCount + 1;
      }
      jsonResults := jsonResults + [jsonResult];
    }
    assert results[..|results|] == results;
    output := JsonOutput(JsonSummary(|results|, vulnerableCount, config.concurrency), jsonResults);
    saveRequested := config.outputFile != "";
  }

  /** The number of records that name a vulnerability kind. */
  function CountTyped(js: seq<JsonResult>): nat
    decreases |js|
  {
    if js == [] then 0 else (if js[0].vulnType != "" then 1 else 0) + CountTyped(js[1..])
  }

  /** For classifier results, the summary's vulnerable count is the number of
      records that carry a vulnerability kind, so the summary agrees with
      the records. */
  lemma {:induction false} SummaryMatchesRecords(rs: seq<ScanResult>, js: seq<JsonResult>)
    requires forall r :: r in rs ==> WellFormed(r)
    requires |js| == |rs| && forall i :: 0 <= i < |rs| ==> js[i] == ToJsonResult(rs[i])
    ensures CountFindings(rs) == CountTyped(js)
    decreases |rs|
  {
    if rs != [] {
      assert rs[0] in rs && WellFormed(rs[0]);
      assert forall r :: r in rs[1..] ==> r in rs;
      SummaryMatchesRecords(rs[1..], js[1..]);
    }
  }

  /** What outputResults renders: text or JSON, as configured. */
  datatype Rendered =
    | Text(lines: seq<string>, vulnerableCount: int, saveRequested: bool)
    | Json(output: JsonOutput, saveRequested: bool)

  /** outputResults: JSON mode when configured, text mode otherwise; both
      modes count the same findings. */
  method OutputResults(config: Config, results: seq<ScanResult>) returns (rendered: Rendered)
    ensures rendered.Json? <==> config.jsonOutput
    ensures rendered.Text? ==> rendered.lines == FindingLines(results) && rendered.vulnerableCount == CountFindings(results)
    ensures rendered.Json? ==> rendered.output.summary == JsonSummary(|results|, CountFindings(results), config.concurrency)
    ensures rendered.Json? ==> |rendered.output.results| == |results|
    ensures rendered.Json? ==> forall i :: 0 <= i < |results| ==> rendered.output.results[i] == ToJsonResult(results[i])
    ensures rendered.Json? ==> (rendered.saveRequested <==> config.outputFile != "")
    ensures rendered.Text? ==> (rendered.saveRequested <==> config.outputFile != "" && |rendered.lines| > 0)
  {
    if config.jsonOutput {
      var output, save := OutputJsonResults(config, results);
      rendered := Json(output, save);
    } else {
      var lines, count, save := OutputTextResults(config, results);
      rendered := Text(lines, count, save);
    }
  }
}
