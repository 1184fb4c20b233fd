/** The parts of the vendor API's JSON responses the scripts read, already
    parsed. A field the response may lack is an `Option`; reading a missing
    one with `[...]` is a KeyError. */
module Api {
  import opened Wrappers

  /** `{"cve": {"severity": ..., "description": ...}}` */
  datatype Cve = Cve(severity: Option<string>, description: Option<string>)
  datatype Vulnerability = Vulnerability(cve: Option<Cve>)

  /** A response of the vulnerabilities endpoint. */
  datatype VulnerabilityResponse = VulnerabilityResponse(status: int, vulnerabilities: Option<seq<Vulnerability>>)

  /** One entry of a `risks` list. The time-series code reads the first
      seven fields, the remediation code `finding`, `risk`, `description`
      and `hostnames`. */
  datatype Risk = Risk(
    riskSubtype: Option<string>,
    severity: Option<string>,
    category: Option<string>,
    description: Option<string>,
    firstDetected: Option<string>,
    risk: Option<string>,
    finding: Option<string>,
    hostnames: Option<seq<string>>)

  /** A response of a risks endpoint. */
  datatype RiskResponse = RiskResponse(status: int, risks: Option<seq<Risk>>)

  /** A response of the vendor endpoint: the overall score and the map of
      category scores. */
  datatype ScoreResponse = ScoreResponse(score: Option<int>, categoryScores: Option<map<string, int>>)

  const OK: int := 200

  /** `range(0, len(xs) - 1)`: every index but the last; none when `xs` is empty. */
  function AllButLast<T>(xs: seq<T>): (r: seq<T>)
    ensures |r| == if |xs| == 0 then 0 else |xs| - 1
    ensures forall i :: 0 <= i < |r| ==> r[i] == xs[i]
  {
    if |xs| == 0 then [] else xs[..|xs| - 1]
  }
}
