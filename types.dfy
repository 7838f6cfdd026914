/** Value types shared by the scanner's components: an optional value, the
    run configuration and the per-endpoint scan result. */
module Types {

  datatype Option<+T> = None | Some(value: T)

  /** The run configuration (main.go's `Config`). It is fixed before the scan
      starts and passed explicitly instead of living in a global. */
  datatype Config = Config(concurrency: int, outputFile: string, verbose: bool, jsonOutput: bool)

  /** The defaults the command line installs when no flag is given. */
  const DefaultConfig := Config(20, "", false, false)

  /** The two vulnerability kinds the classifier reports. */
  const ReadAccess := "READ ACCESS"
  const Takeover := "TAKEOVER"

  /** The outcome for one endpoint (main.go's `Result`). `error` is Go's
      `error` value: None for nil, Some(message) otherwise. `vulnType` is ""
      when no kind was assigned. */
  datatype ScanResult = ScanResult(url: string, vulnerable: bool, vulnType: string, error: Option<string>)

  /** The shape every classifier result has: a vulnerable result carries no
      error and one of the two kinds; any other result carries no kind. */
  predicate WellFormed(r: ScanResult) {
    && (r.vulnerable ==> r.error.None? && (r.vulnType == ReadAccess || r.vulnType == Takeover))
    && (!r.vulnerable ==> r.vulnType == "")
  }
}
