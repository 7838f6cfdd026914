/** The scanner's main flow (main.go's runFiremon): collect the targets,
    stop with an error when there are no arguments or no valid target,
    otherwise scan and render the results. */
module Firemon {
  import opened Types
  import Normalizer
  import Dedup
  import Classifier
  import Scan
  import Input
  import Report

  const NoArgumentsMessage := "Error: Please provide at least one URL or a file containing URLs"
  const NoTargetsMessage := "Error: No valid Firebase URLs found"

  /** How a run ends: with exit status 1 and a message, or with the scan's
      targets, results and rendered output. */
  datatype Outcome =
    | Fatal(message: string)
    | Completed(targets: seq<string>, results: seq<ScanResult>, rendered: Report.Rendered)

  /** runFiremon, with the file system, URL parser, network and the worker
      pool's completion order as parameters. */
  method RunFiremon(config: Config, args: seq<string>, fs: Input.FileSystem, parse: Normalizer.UrlParser,
                    network: Classifier.Network, order: seq<nat>)
    returns (outcome: Outcome)
    requires Scan.IsPermutation(order, |Dedup.Unique(Input.Targets(args, fs, parse))|)
    ensures args == [] ==> outcome == Fatal(NoArgumentsMessage)
    ensures args != [] && Input.Targets(args, fs, parse) == [] ==> outcome == Fatal(NoTargetsMessage)
    ensures outcome.Fatal? <==> args == [] || Input.Targets(args, fs, parse) == []
    ensures outcome.Completed? ==>
              && outcome.targets == Input.Targets(args, fs, parse)
              && outcome.results == (if config.concurrency <= 0 then []
                                     else Scan.CompletionOrder(network, Dedup.Unique(outcome.targets), order))
              && (forall r :: r in outcome.results ==> WellFormed(r))
              && (outcome.rendered.Json? <==> config.jsonOutput)
    ensures outcome.Completed? && outcome.rendered.Text? ==>
              && outcome.rendered.lines == Report.FindingLines(outcome.results)
              && outcome.rendered.vulnerableCount == Report.CountFindings(outcome.results)
              && (outcome.rendered.saveRequested <==> config.outputFile != "" && |outcome.rendered.lines| > 0)
    ensures outcome.Completed? && outcome.rendered.Json? ==>
              && outcome.rendered.output.summary
                   == Report.JsonSummary(|outcome.results|, Report.CountFindings(outcome.results), config.concurrency)
              && |outcome.rendered.output.results| == |outcome.results|
              && (forall i :: 0 <= i < |outcome.results| ==>
                    outcome.rendered.output.results[i] == Report.ToJsonResult(outcome.results[i]))
              && (outcome.rendered.saveRequested <==> config.outputFile != "")
  {
    if |args| == 0 {
      return Fatal(NoArgumentsMessage);
    }
    var urls := Input.CollectUrls(args, fs, parse);
    if |urls| == 0 {
      return Fatal(NoTargetsMessage);
    }
    var results := Scan.ProcessUrlsConcurrently(config, network, urls, order);
    Scan.ResultsWellFormed(network, Dedup.Unique(urls), order);
    var rendered := Report.OutputResults(config, results);
    outcome := Completed(urls, results, rendered);
  }
}
