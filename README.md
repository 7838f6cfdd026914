# Firemon scan core in Dafny

Firemon scans Firebase real-time database endpoints. For each candidate URL it
finds out whether the endpoint can be read without authentication
(`READ ACCESS`) or whether its database is gone while the host name still
resolves (`TAKEOVER`), and it reports the findings as text lines or as a JSON
document.

This project models the sequential core of `main.go` and proves properties
about it:

- **Target collection** (`input.dfy`, module `Input`). Arguments are expanded
  into raw strings. A readable file contributes its trimmed lines, minus blank
  lines and `#` comments. Any other argument contributes itself. Each raw
  string is then normalised, and the ones that are rejected are dropped.
- **URL normalisation** (`normalizer.dfy`, module `Normalizer`). An input is
  rejected unless its lower-cased form contains `.firebaseio.com` and it
  parses. Otherwise it is reduced to `scheme://host/`.
- **Deduplication** (`dedup.dfy`, module `Dedup`). The first occurrence of each
  target is kept, in input order.
- **Classification** (`classifier.dfy`, module `Classifier`). A decision table
  maps one probe outcome to exactly one of four verdicts: read access,
  takeover, not vulnerable, or failure.
- **Scan** (`scan.dfy`, module `Scan`). This is a sequential abstraction of the
  worker pool. Each unique target is classified once, and the results arrive in
  a completion order given as a permutation.
- **Reporting** (`report.dfy`, module `Report`). Text mode returns the finding
  lines, their count and whether they would be appended to the output file.
  JSON mode returns the records, the summary and whether the output file would
  be overwritten.
- **Main flow** (`firemon.dfy`, module `Firemon`). It stops with an error when
  there are no arguments or no valid target. Otherwise it scans and renders.

Shared types are in `types.dfy` (module `Types`). The few `strings`-package
operations the core uses are in `text.dfy` (module `Text`).

## Assumptions about the environment

The global configuration becomes an explicit `Config` value. Everything the
core gets from outside is a parameter:

- `url.Parse` is `Normalizer.UrlParser`, a function from a string to an
  optional parsed URL.
- The file system is `Input.FileSystem`. It says whether a path names a regular
  file, and gives the file's lines, or `None` when opening or scanning the file
  fails.
- The network is `Classifier.Network`. It maps the probed URL to a `Probe`:
  - a transport error;
  - a body-read error;
  - or a response with its status, body length and decoding.

  The decoding is either `DecodeFailed` or `Decoded(errorField)`, where the
  field is `""` when it is absent.
- The worker pool's completion order is a permutation of the unique targets'
  indices.

## Behaviours worth knowing

These follow from the code and are stated as lemmas or contracts.

- **The marker is not tied to the host.** `Normalizer.MarkerNotTiedToHost` shows
  that a URL on any host is accepted when `.firebaseio.com` appears anywhere in
  it, for example in its path. The URL is then reduced to that other host.
- **Scheme-less input collapses into one bogus target.** net/url parses a bare
  host name such as `abc.firebaseio.com` as a path, with empty scheme and host.
  The input passes the marker test, so it becomes the target `:///`
  (`Normalizer.RootUrl` of empty scheme and host). Every bare-host input
  collapses into this one target, and its probe fails at transport level.
  `Normalizer.SchemelessRoot` states this.
- **The status code is ignored once the body decodes.**
  `Classifier.StatusIgnoredWhenDecoded` shows this. For example, a non-200
  response with a decodable body and no `error` field is `READ ACCESS`.
- **Zero workers means zero results.** With a concurrency of zero or less, no
  worker is started, so nothing is scanned and the results are empty
  (`Scan.ProcessUrlsConcurrently`). So the promise of one result per target
  holds only for a positive concurrency.
- **Vulnerable counts skip errors.** Both output modes count only error-free
  results with `vulnerable` set. For classifier results this is the same as
  counting `vulnerable` alone, because no result is both vulnerable and in
  error.

## Model

| member | source | states |
|---|---|---|
| `Text.ContainsIff` | main.go:154 | `strings.Contains(s, sub)` holds exactly when `sub` occurs at some index of `s` |
| `Text.HasPrefix` | main.go:143 | `strings.HasPrefix` holds exactly when the prefix occurs at index 0 |
| `Text.ToLowerSlice` | main.go:152-154 | lower-casing commutes with slicing, so the marker test can be read slice by slice |
| `Text.TrimSpaceEnds` | main.go:142 | the trimmed line neither starts nor ends with white space, and it is empty exactly when the line is all white space |
| `Text.TrimSpaceSlice` | main.go:142 | the trimmed line is the slice of the line that starts where the leading white space ends |
| `Text.TrimSpaceCutsSpace` | main.go:142 | everything cut off before and after that slice is white space |
| `Normalizer.RootUrl` | main.go:169 | the target is the scheme, then `://`, then the host, then a single `/` |
| `Normalizer.ProcessFirebaseUrl` | main.go:151-176 | the result is `""` when the lower-cased input lacks `.firebaseio.com`; it is also `""` when parsing fails; otherwise it is the parsed URL's root |
| `Normalizer.AcceptedIffNonEmpty` | main.go:151-176 | the result is non-empty exactly when the marker is present and the input parses, so `""` is an unambiguous rejection |
| `Normalizer.OnlySchemeAndHostMatter` | main.go:161-169 | user information, path, query and fragment never affect the result |
| `Normalizer.MarkerAnyCase` | main.go:152-154 | the marker spelled in any ASCII case passes the test |
| `Normalizer.SchemelessRoot` | main.go:161-169 | an input that mentions the marker and parses with empty scheme and host becomes the target `:///`, whatever its path |
| `Normalizer.MarkerNotTiedToHost` | main.go:152-169 | a parsable input with the marker anywhere is reduced to the root of whatever host it names |
| `Dedup.RemoveDuplicates` | main.go:208-220 | the seen-map loop computes `Unique(urls)` |
| `Dedup.UniqueElements` | main.go:208-220 | the output contains exactly the strings of the input |
| `Dedup.UniqueNoDuplicates` | main.go:208-220 | the output repeats no string |
| `Dedup.UniqueFirstOccurrenceOrder` | main.go:208-220 | the output lists strings in the order of their first occurrence in the input |
| `Dedup.UniqueOfDistinct` | main.go:208-220 | an input without repetitions is returned unchanged |
| `Dedup.UniqueIdempotent` | main.go:208-220 | deduplicating twice is the same as deduplicating once |
| `Classifier.JsonUrl` | main.go:236 | the probed URL is the target followed by `.json` |
| `Classifier.Classify` | main.go:242-291 | the result names the target and is well formed: vulnerable implies no error and a kind of `READ ACCESS` or `TAKEOVER`, and not vulnerable implies no kind; it carries an error exactly when one of these holds: the request failed, the body read failed, or the body did not decode and the response was not a non-empty 200 |
| `Classifier.CheckFirebaseVulnerability` | main.go:235-292 | the result of probing the target names the target and is well formed |
| `Classifier.VerdictFields` | main.go:26-31 | each of the four verdicts corresponds to exactly one combination of error, vulnerable flag and kind |
| `Classifier.DecisionTable` | main.go:242-291 | transport and read errors carry their message; if the body does not decode, a non-empty 200 response is read access and anything else fails with "could not parse response as JSON"; if it decodes, an empty `error` field is read access, an error text containing "404 Not Found" is a takeover, and any other error text is not vulnerable |
| `Classifier.StatusIgnoredWhenDecoded` | main.go:259-291 | once the body decodes, neither the status nor the body length changes the result |
| `Classifier.TakeoverOnNotFound` | main.go:274-281 | an error text with "404 Not Found" at any position gives the takeover verdict |
| `Scan.ProcessUrlsConcurrently` | main.go:178-206 | with no worker the results are empty; otherwise they are the classification of each deduplicated target, in completion order |
| `Scan.EachTargetOnce` | main.go:178-233 | there are as many results as unique targets, no two results name the same target, and the targets named are exactly the input URLs |
| `Scan.ResultsWellFormed` | main.go:222-233 | every result the workers publish is well formed |
| `Report.FindingLinesAppend` | main.go:306-322 | the finding lines of a concatenation are the lines of each part in turn, so lines follow result order |
| `Report.FindingLinesSpec` | main.go:306-322 | there is one line per finding: the number of lines is the number of error-free vulnerable results; every line is `<URL> [VULNERABLE : <kind>]` of such a result; every such result has its line |
| `Report.OutputTextResults` | main.go:302-334 | the lines are the finding lines in result order; the vulnerable count equals the number of lines; a save is requested exactly when an output file is set and there is at least one line |
| `Report.ToJsonResult` | main.go:342-352 | the record copies URL and vulnerable flag; an error result carries its message and no kind; an error-free result carries no message, and it carries its kind exactly when it is vulnerable |
| `Report.OutputJsonResults` | main.go:337-381 | there is one record per result, in order; the summary holds the total `len(results)`, the number of error-free vulnerable results and the configured concurrency; a save is requested exactly when an output file is set |
| `Report.SummaryMatchesRecords` | main.go:337-364 | for classifier results, the summary's vulnerable count equals the number of records that carry a kind |
| `Report.OutputResults` | main.go:294-300 | JSON mode is chosen exactly when configured; text mode gives the finding lines and their count, and requests a save exactly when a file is set and there is a line; JSON mode gives the summary and record i as the record of result i, and requests a save exactly when a file is set |
| `Input.UrlLinesSound` | main.go:141-146 | every URL taken from a file is the trimmed form of one of its lines, is non-empty and does not start with `#`; there are no more URLs than lines |
| `Input.UrlLinesComplete` | main.go:141-146 | every line whose trimmed form is non-empty and does not start with `#` contributes that form |
| `Input.UrlLinesAppend` | main.go:141-146 | the URLs of concatenated line lists are those of each list in turn, so URLs keep the order of their lines |
| `Input.ReadUrlLines` | main.go:139-148 | the filter loop computes `UrlLines(lines)` |
| `Input.FirebaseTargetsSpec` | main.go:117-124 | every collected target is the root of an accepted raw string; every accepted raw string contributes its root; there are no more targets than raw strings |
| `Input.FirebaseTargetsAppend` | main.go:117-124 | the targets of concatenated raw lists are those of each list in turn, so targets keep the order of their raw strings |
| `Input.CollectUrls` | main.go:99-125 | the two loops compute `Targets(args)`: readable files contribute their URL lines, unreadable files nothing, other arguments themselves, and then only accepted strings are kept, normalised, in order |
| `Firemon.RunFiremon` | main.go:76-97 | with no arguments the run fails with the usage message; with no valid target it fails with the "no valid Firebase URLs" message; otherwise it completes with the collected targets, the scan results (all well formed) and the configured render mode, whose content is that of the chosen mode: the finding lines, their count and the save condition in text mode; the summary, one record per result and the save condition in JSON mode |

## Left out

- Command line and process control are not modelled: cobra, flag parsing, the banner and `os.Exit`. `Types.DefaultConfig` records the flag defaults. `Firemon.Fatal` stands for exit status 1 with its message.
- File access is not modelled: `os.Stat`, `os.Open` and `bufio.Scanner`. They are replaced by `Input.FileSystem`. A scan error, such as a line over the scanner's limit, shows up as `None` for the whole file, because the caller then discards the file.
- Writing output files is not modelled: `saveTextToFile` and `saveJSONToFile`, with `MkdirAll`, append and truncate. The model only states when a save is requested. The append-versus-overwrite policy is not modelled.
- The HTTP client, its 10-second timeout and `io.ReadAll` are not modelled. They are replaced by `Classifier.Probe`.
- `json.Unmarshal` and `json.MarshalIndent` are not modelled. Decoding is abstracted to `Classifier.Decoding`. The JSON document is abstracted to `Report.JsonOutput`, where `""` marks a field that `omitempty` drops. JSON syntax and indentation are not modelled. The marshalling error path is not modelled either, because these types always marshal.
- `url.Parse` is not modelled. It is the parameter `Normalizer.UrlParser`.
- `Text.ToLower`: only ASCII letters are lower-cased. Go's `strings.ToLower` also maps other Unicode letters, such as U+0130, which lower-cases to `i`.
- `Text.TrimSpaceEnds`: TrimSpace works on characters, not on UTF-8 bytes. Invalid UTF-8 cannot be represented.
- The worker pool is not modelled: goroutines, channels, the WaitGroup and the closing goroutine. It is replaced by a completion order given as a permutation. Scheduling, blocking and data races are not modelled.
- Verbose logging is not modelled. This covers the skip and accept messages, per-request lines, the "NOT VULNERABLE" and error lines, and the summary line. Text mode's returned lines are exactly the non-verbose standard output.
- Go's `error` values are reduced to their message strings.
- Counts are unbounded integers. Go's `int` cannot overflow here, because a count never exceeds the number of results.
