/** The records that cross module boundaries. */
module Domain {
  import opened Text
  import opened TimeText

  datatype Agent = Agent(
    id: string, dnsName: string, displayName: string, description: string,
    providerId: string, status: string,
    protocols: seq<string>, transports: seq<string>, tags: seq<string>, capabilities: seq<string>,
    firstSeen: Instant, lastUpdated: Instant)

  /** The five lifecycle states; the store's CHECK constraint lists the same set. */
  predicate ValidStatus(s: string) {
    s == "ACTIVE" || s == "WARNING" || s == "DEPRECATED" || s == "EXPIRED" || s == "REVOKED"
  }

  datatype Provenance = Provenance(aimId: string, evidenceUrl: string)

  datatype DriftValue = DriftValue(
    expected: string, observed: string, matched: bool, expectedSource: string, observedSource: string)

  datatype DnsValue = DnsValue(dnssec: bool, caa: bool)

  datatype ScoreValue = ScoreValue(score: Option<int>, riskCodes: seq<string>, explanation: string)

  /** An observation's JSON value, known only through what each typed decoder
      yields for it; None is a decode error. */
  datatype RawValue = RawValue(
    certType: Option<string>, dns: Option<DnsValue>, versionChanges: Option<int>,
    drift: Option<DriftValue>, score: Option<ScoreValue>)

  /** An observation as a producer submits it. */
  datatype Observation = Observation(
    agent: string, signal: string, at: Instant, value: RawValue, provenance: Option<Provenance>)

  /** What is left of an observation once its time lost the fraction. */
  function Truncated(o: Observation): Observation {
    o.(at := Second(o.at) * NANOS_PER_SECOND)
  }

  /** An observation as its row holds it: the time is text. */
  datatype Evidence = Evidence(
    agent: string, signal: string, observedAt: string, value: RawValue, provenance: Option<Provenance>)

  function Stamp(o: Observation): Evidence {
    Evidence(o.agent, o.signal, FormatTime(o.at), o.value, o.provenance)
  }

  const INTEGRITY := "integrity"
  const IDENTITY := "identity"
  const SOLVENCY := "solvency"
  const BEHAVIOR := "behavior"
  const SAFETY := "safety"

  const ALL_DIMENSIONS: seq<string> := [INTEGRITY, IDENTITY, SOLVENCY, BEHAVIOR, SAFETY]
}
