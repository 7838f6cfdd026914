/** Vulnerability classification (main.go's checkFirebaseVulnerability),
    separated from the network: the HTTP exchange is an abstract probe
    outcome, and the function maps each outcome to exactly one verdict. */
module Classifier {
  import opened Types
  import Text

  /** The substring of a Firebase error message that signals a deleted
      database, and so a takeover opportunity. */
  const NotFoundMarker := "404 Not Found"
  const ParseFailureMessage := "could not parse response as JSON"

  /** Decoding the body as an object with an optional string field `error`
      (main.go's FirebaseResponse): it fails, or it yields the field, "" when
      absent. */
  datatype Decoding = DecodeFailed | Decoded(errorField: string)

  /** What the GET of one endpoint produced: the request failed, reading the
      body failed, or a response with its status, body length and decoding. */
  datatype Probe =
    | TransportError(message: string)
    | ReadError(message: string)
    | Response(status: int, bodyLength: nat, decoding: Decoding)

  /** The network, as the outcome of a GET of each URL. */
  type Network = string -> Probe

  /** The URL that is probed for a scan target. */
  function JsonUrl(baseUrl: string): (u: string)
    ensures |u| == |baseUrl| + 5 && u[..|baseUrl|] == baseUrl && u[|baseUrl|..] == ".json"
  {
    baseUrl + ".json"
  }

  /** The decision part of checkFirebaseVulnerability. Every result names the
      target, is well formed, and carries an error exactly when the request
      or the body read failed, or the body could not be decoded and was not
      a non-empty 200 response. */
  function Classify(baseUrl: string, probe: Probe): (r: ScanResult)
    ensures r.url == baseUrl && WellFormed(r)
    ensures r.error.Some? <==>
              || probe.TransportError? || probe.ReadError?
              || (probe.Response? && probe.decoding.DecodeFailed? && !(probe.status == 200 && probe.bodyLength > 0))
  {
    match probe
    case TransportError(msg) => ScanResult(baseUrl, false, "", Some(msg))
    case ReadError(msg) => ScanResult(baseUrl, false, "", Some(msg))
    case Response(status, bodyLength, decoding) =>
      match decoding
      case DecodeFailed =>
        if status == 200 && bodyLength > 0 then ScanResult(baseUrl, true, ReadAccess, None)
        else ScanResult(baseUrl, false, "", Some(ParseFailureMessage))
      case Decoded(errorField) =>
        if errorField != "" then
          if Text.Contains(errorField, NotFoundMarker) then ScanResult(baseUrl, true, Takeover, None)
          else ScanResult(baseUrl, false, "", None)
        else ScanResult(baseUrl, true, ReadAccess, None)
  }

  /** checkFirebaseVulnerability: probe `baseUrl + ".json"` and classify the
      outcome. */
  function CheckFirebaseVulnerability(network: Network, baseUrl: string): (r: ScanResult)
    ensures r.url == baseUrl && WellFormed(r)
  {
    Classify(baseUrl, network(JsonUrl(baseUrl)))
  }

  /** The four verdicts a result can express. */
  datatype Verdict = ReadAccessVerdict | TakeoverVerdict | NotVulnerable | Failed

  function VerdictOf(r: ScanResult): Verdict {
    if r.error.Some? then Failed
    else if !r.vulnerable then NotVulnerable
    else if r.vulnType == Takeover then TakeoverVerdict
    else ReadAccessVerdict
  }

  /** The verdict of a well-formed result is read off unambiguously: each
      verdict corresponds to exactly one combination of fields. */
  lemma VerdictFields(r: ScanResult)
    requires WellFormed(r)
    ensures VerdictOf(r) == Failed <==> r.error.Some? && !r.vulnerable
    ensures VerdictOf(r) == NotVulnerable <==> r.error.None? && !r.vulnerable
    ensures VerdictOf(r) == TakeoverVerdict <==> r.error.None? && r.vulnerable && r.vulnType == Takeover
    ensures VerdictOf(r) == ReadAccessVerdict <==> r.error.None? && r.vulnerable && r.vulnType == ReadAccess
  {
  }

  /** The decision table, row by row. */
  lemma DecisionTable(baseUrl: string, probe: Probe)
    ensures probe.TransportError? ==> Classify(baseUrl, probe).error == Some(probe.message)
    ensures probe.ReadError? ==> Classify(baseUrl, probe).error == Some(probe.message)
    ensures probe.Response? && probe.decoding.DecodeFailed? ==>
              VerdictOf(Classify(baseUrl, probe))
                == if probe.status == 200 && probe.bodyLength > 0 then ReadAccessVerdict else Failed
    ensures probe.Response? && probe.decoding.DecodeFailed? && !(probe.status == 200 && probe.bodyLength > 0) ==>
              Classify(baseUrl, probe).error == Some(ParseFailureMessage)
    ensures probe.Response? && probe.decoding.Decoded? ==>
              VerdictOf(Classify(baseUrl, probe))
                == if probe.decoding.errorField == "" then ReadAccessVerdict
                   else if Text.Contains(probe.decoding.errorField, NotFoundMarker) then TakeoverVerdict
                   else NotVulnerable
  {
  }

  /** Once the body decodes, the status code plays no part: a decodable body
      without an `error` field is read access whatever the status. */
  lemma StatusIgnoredWhenDecoded(baseUrl: string, status1: int, status2: int, len1: nat, len2: nat, d: Decoding)
    requires d.Decoded?
    ensures Classify(baseUrl, Response(status1, len1, d)) == Classify(baseUrl, Response(status2, len2, d))
  {
  }

  /** An error text that mentions "404 Not Found" anywhere, not only as its
      whole text, is a takeover. */
  lemma {:induction false} TakeoverOnNotFound(baseUrl: string, status: int, bodyLength: nat, errorField: string, i: int)
    requires Text.OccursAt(errorField, NotFoundMarker, i)
    ensures VerdictOf(Classify(baseUrl, Response(status, bodyLength, Decoded(errorField)))) == TakeoverVerdict
  {
    Text.ContainsIff(errorField, NotFoundMarker);
  }
}
