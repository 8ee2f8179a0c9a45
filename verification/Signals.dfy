/** The plug-in contract of a signal. */
module Signals {
  import opened Text
  import opened Domain

  const UNATTESTED := "unattested"
  const TL_ATTESTED := "tl_attested"
  const CARD_ATTESTED := "card_attested"

  datatype SignalResult = SignalResult(
    raw: int, explanation: string, attestation: string, riskCodes: seq<string>, cap: Option<int>)

  /** Any implementation, built-in or third-party.  absenceInformative is false
      only for a signal that declares a missing observation meaningless. */
  datatype Signal = Signal(
    id: string, dimension: string, derived: bool, absenceInformative: bool,
    validate: RawValue -> bool,
    evaluate: (Agent, Option<Observation>) -> Result<SignalResult>)
}
