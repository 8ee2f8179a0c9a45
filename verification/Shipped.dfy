/** The eight built-in signals and the configurable provider-score container. */
module Shipped {
  import opened Text
  import opened TimeText
  import opened Decimal
  import opened Domain
  import opened Signals
  import opened Scoring
  import opened ScoringLaws

  const RAMP_DAYS := 180
  const NANOS_PER_DAY := 86_400 * NANOS_PER_SECOND
  const CHURN_HIGH := 4
  const MAX_RISK_CODES := 16
  const DEFAULT_LOW_THRESHOLD := 70

  const IDENTITY_CODE := "IDENTITY_"
  const INTEGRITY_CODE := "INTEGRITY_"

  const RISK_CERT_MISSING := IDENTITY_CODE + "CERT_MISSING"
  const RISK_CERT_DV_ONLY := IDENTITY_CODE + "CERT_DV_ONLY"
  const RISK_DNSSEC_BROKEN := INTEGRITY_CODE + "DNSSEC_BROKEN"
  const RISK_AGENT_NEW := INTEGRITY_CODE + "AGENT_NEW"
  const RISK_VERSION_CHURN_HIGH := INTEGRITY_CODE + "VERSION_CHURN_HIGH"
  const RISK_SERVER_CERT_FP_DRIFT := INTEGRITY_CODE + "SERVER_CERT_FINGERPRINT_DRIFT"
  const RISK_IDENTITY_CERT_FP_DRIFT := INTEGRITY_CODE + "IDENTITY_CERT_FINGERPRINT_DRIFT"
  const RISK_DNS_ANS_DRIFT := INTEGRITY_CODE + "DNS_ANS_DRIFT"
  const RISK_DNS_ANS_BADGE_DRIFT := INTEGRITY_CODE + "DNS_ANS_BADGE_DRIFT"

  datatype Shipped =
    | CertType
    | DnsSecurity
    | AgentAge(now: Instant)
    | VersionStability
    | Drift(driftId: string, subject: string, code: string, fingerprints: bool)
    | ProviderScore(scoreId: string, scoreDimension: string, vendor: string, threshold: int)

  const CERT_SERVER := Drift("certfingerprint.server", "serverCert fingerprint", RISK_SERVER_CERT_FP_DRIFT, true)
  const CERT_IDENTITY := Drift("certfingerprint.identity", "identityCert fingerprint", RISK_IDENTITY_CERT_FP_DRIFT, true)
  const DNS_ANS := Drift("dnsrecord.ans", "_ans TXT", RISK_DNS_ANS_DRIFT, false)
  const DNS_ANS_BADGE := Drift("dnsrecord.ans-badge", "_ans-badge TXT", RISK_DNS_ANS_BADGE_DRIFT, false)

  // ----- provider-score codes

  /** strings.ToUpper as far as the code alphabet can tell: the two non-ASCII
      letters that become ASCII, and the ASCII letters. */
  function UpperChar(c: char): char {
    if 'a' <= c <= 'z' then (c as int - 32) as char
    else if c == '\U{0131}' then 'I'
    else if c == '\U{017F}' then 'S'
    else c
  }

  function Upper(s: string): (r: string)
    ensures |r| == |s| && forall i :: 0 <= i < |s| ==> r[i] == UpperChar(s[i])
  {
    seq(|s|, i requires 0 <= i < |s| => UpperChar(s[i]))
  }

  predicate CodeChar(c: char) {
    'A' <= c <= 'Z' || '0' <= c <= '9' || c == '_'
  }

  predicate InAlphabet(s: string) {
    forall i :: 0 <= i < |s| ==> CodeChar(s[i])
  }

  /** ^[A-Z0-9_]+$ */
  predicate WellFormedCode(s: string) {
    s != "" && InAlphabet(s)
  }

  function Prefix(dimension: string): string {
    Upper(dimension) + "_"
  }

  /** Uppercased, with everything outside the alphabet turned into '_'. */
  method SanitizeSegment(s: string) returns (r: string)
    ensures r == Sanitized(s)
    ensures |r| == |s| && InAlphabet(r)
  {
    var up := Upper(s);
    r := "";
    for i := 0 to |up|
      invariant r == Sanitized(s)[..i]
    {
      if CodeChar(up[i]) {
        r := r + [up[i]];
      } else {
        r := r + ['_'];
      }
    }
  }

  function Sanitized(s: string): (r: string)
    ensures |r| == |s| && InAlphabet(r)
  {
    seq(|s|, i requires 0 <= i < |s| => if CodeChar(UpperChar(s[i])) then UpperChar(s[i]) else '_')
  }

  /** The position of the last dot, or |s| when there is none. */
  function LastDot(s: string): (i: nat)
    ensures i <= |s| && (i < |s| ==> s[i] == '.')
    ensures forall j :: 0 <= j < |s| && (i == |s| || i < j) ==> s[j] != '.'
  {
    if s == "" then 0
    else if s[|s| - 1] == '.' then |s| - 1
    else
      var i := LastDot(s[..|s| - 1]);
      if i == |s| - 1 then |s| else i
  }

  function VendorSegment(id: string): string {
    var i := LastDot(id);
    if i == |id| then id
    else
      var rest := id[..i];
      rest[..LastDot(rest)]
  }

  function NewProviderScore(id: string, dimension: string, threshold: Option<int>): Shipped {
    ProviderScore(id, dimension, Sanitized(VendorSegment(id)),
                  if threshold.Some? then threshold.value else DEFAULT_LOW_THRESHOLD)
  }

  /** What the composition root can register. */
  ghost predicate Configured(s: Shipped) {
    match s
    case Drift(_, _, _, _) => s == CERT_SERVER || s == CERT_IDENTITY || s == DNS_ANS || s == DNS_ANS_BADGE
    case ProviderScore(id, dimension, _, _) =>
      dimension in ALL_DIMENSIONS && exists threshold :: s == NewProviderScore(id, dimension, threshold)
    case _ => true
  }

  // ----- identity

  function Id(s: Shipped): string {
    match s
    case CertType => "certtype"
    case DnsSecurity => "dnssecurity"
    case AgentAge(_) => "agentage"
    case VersionStability => "versionstability"
    case Drift(id, _, _, _) => id
    case ProviderScore(id, _, _, _) => id
  }

  function DimensionOfShipped(s: Shipped): string {
    match s
    case CertType => IDENTITY
    case ProviderScore(_, dimension, _, _) => dimension
    case _ => INTEGRITY
  }

  // ----- validation

  predicate Hex(c: char) {
    '0' <= c <= '9' || 'a' <= c <= 'f' || 'A' <= c <= 'F'
  }

  predicate ValidFingerprint(s: string) {
    "SHA256:" <= s && |s| == 7 + 64 && forall i :: 7 <= i < |s| ==> Hex(s[i])
  }

  predicate FingerprintOrEmpty(s: string) {
    s == "" || ValidFingerprint(s)
  }

  predicate CrossChecked(v: DriftValue) {
    v.expected != "" && v.observed != "" ==> (v.matched <==> v.expected == v.observed)
  }

  predicate ValidScore(v: ScoreValue, prefix: string) {
    && v.score.Some? && 0 <= v.score.value <= 100
    && |v.riskCodes| <= MAX_RISK_CODES
    && forall i :: 0 <= i < |v.riskCodes| ==> WellFormedCode(v.riskCodes[i]) && prefix <= v.riskCodes[i]
  }

  predicate Validates(s: Shipped, v: RawValue) {
    match s
    case CertType => v.certType.Some? && v.certType.value in ["DV", "OV", "EV", "none"]
    case DnsSecurity => v.dns.Some?
    case AgentAge(_) => false
    case VersionStability => v.versionChanges.Some? && v.versionChanges.value >= 0
    case Drift(_, _, _, fingerprints) =>
      && v.drift.Some?
      && (fingerprints ==> FingerprintOrEmpty(v.drift.value.expected) && FingerprintOrEmpty(v.drift.value.observed))
      && CrossChecked(v.drift.value)
    case ProviderScore(_, dimension, _, _) => v.score.Some? && ValidScore(v.score.value, Prefix(dimension))
  }

  // ----- evaluation

  function Plain(raw: int, explanation: string, risks: seq<string>): Result<SignalResult> {
    Ok(SignalResult(raw, explanation, UNATTESTED, risks, None))
  }

  function AttestationFor(source: string): string {
    if source == "tl_attestation" then TL_ATTESTED
    else if source == "trust_card_hash" then CARD_ATTESTED
    else UNATTESTED
  }

  function AgeDays(now: Instant, firstSeen: Instant): nat {
    if now < firstSeen then 0 else (now - firstSeen) / NANOS_PER_DAY
  }

  function AgeScore(days: nat): int {
    var raw := Round((100 * days) as real / RAMP_DAYS as real);
    if raw > 100 then 100 else raw
  }

  function StabilityScore(changes: nat): int {
    Round(100.0 / (1 + changes) as real)
  }

  function EvaluateCertType(seen: Option<Observation>): Result<SignalResult> {
    if seen.None? then Plain(0, "no certificate observed", [RISK_CERT_MISSING])
    else
      match seen.value.value.certType
      case None => Err("certtype: invalid value")
      case Some(t) =>
        if t == "EV" then Plain(100, "EV certificate; raw 100", [])
        else if t == "OV" then Plain(70, "OV certificate; raw 70", [])
        else if t == "DV" then Plain(40, "DV certificate; raw 40", [RISK_CERT_DV_ONLY])
        else Plain(0, "no certificate; raw 0", [])
  }

  function EvaluateDns(seen: Option<Observation>): Result<SignalResult> {
    if seen.None? then Plain(0, "no DNS security observed", [])
    else
      match seen.value.value.dns
      case None => Err("dnssecurity: invalid value")
      case Some(v) =>
        var risks := if v.dnssec then [] else [RISK_DNSSEC_BROKEN];
        if v.dnssec && v.caa then Plain(100, "dnssec + caa present", risks)
        else if v.dnssec then Plain(50, "dnssec present; caa missing", risks)
        else if v.caa then Plain(50, "caa present; dnssec missing", risks)
        else Plain(0, "no dnssec or caa", risks)
  }

  function EvaluateAge(now: Instant, agent: Agent): Result<SignalResult> {
    var days := AgeDays(now, agent.firstSeen);
    Plain(AgeScore(days), Itoa(days) + " days old; ramp to 100 at 180",
          if AgeScore(days) < 25 then [RISK_AGENT_NEW] else [])
  }

  function EvaluateVersions(seen: Option<Observation>): Result<SignalResult> {
    if seen.None? then Plain(0, "no version observation", [])
    else
      match seen.value.value.versionChanges
      case None => Err("versionstability: invalid value")
      case Some(n) =>
        var changes := if n < 0 then 0 else n;
        Plain(StabilityScore(changes), Itoa(changes) + " version changes in 30d",
              if changes >= CHURN_HIGH then [RISK_VERSION_CHURN_HIGH] else [])
  }

  function EvaluateDrift(id: string, subject: string, code: string, seen: Option<Observation>): Result<SignalResult> {
    if seen.None? then Plain(0, "no observation", [])
    else
      match seen.value.value.drift
      case None => Err(id + ": invalid value")
      case Some(v) =>
        var att := AttestationFor(v.expectedSource);
        if v.expected == "" then Ok(SignalResult(0, subject + ": not sealed", att, [], None))
        else if v.matched then Ok(SignalResult(100, subject + " matches sealed value", att, [], None))
        else Ok(SignalResult(0, subject + " drift: sealed=" + v.expected + " observed=" + v.observed, att, [code], None))
  }

  /** The codes that carry the prefix, in order. */
  function Scoped(codes: seq<string>, prefix: string): seq<string> {
    if codes == [] then []
    else
      var c := codes[|codes| - 1];
      Scoped(codes[..|codes| - 1], prefix) + if prefix <= c then [c] else []
  }

  function EvaluateScore(id: string, dimension: string, vendor: string, threshold: int, seen: Option<Observation>): Result<SignalResult> {
    if seen.None? then Err(id + ": Evaluate called with nil observation")
    else
      match seen.value.value.score
      case None => Err(id + ": invalid value")
      case Some(v) =>
        if v.score.None? then Err(id + ": score is required")
        else
          var prefix := Prefix(dimension);
          var low := if v.score.value < threshold then [prefix + vendor + "_SCORE_LOW"] else [];
          var explanation := if v.explanation == "" then id + " score " + IntText(v.score.value) + "/100" else v.explanation;
          Plain(v.score.value, explanation, Scoped(v.riskCodes, prefix) + low)
  }

  function Evaluates(s: Shipped, agent: Agent, seen: Option<Observation>): Result<SignalResult> {
    match s
    case CertType => EvaluateCertType(seen)
    case DnsSecurity => EvaluateDns(seen)
    case AgentAge(now) => EvaluateAge(now, agent)
    case VersionStability => EvaluateVersions(seen)
    case Drift(id, subject, code, _) => EvaluateDrift(id, subject, code, seen)
    case ProviderScore(id, dimension, vendor, threshold) => EvaluateScore(id, dimension, vendor, threshold, seen)
  }

  /** A shipped signal behind the plug-in contract. */
  function AsSignal(s: Shipped): Signal {
    Signal(Id(s), DimensionOfShipped(s), s.AgentAge?, !s.ProviderScore?,
           v => Validates(s, v), (agent, seen) => Evaluates(s, agent, seen))
  }

  // ----- what validation guarantees to evaluation

  /** In range, ungated, and with codes in the alphabet that name the dimension. */
  predicate Clean(r: Result<SignalResult>, dimension: string) {
    && r.Ok? && 0 <= r.value.raw <= 100 && r.value.cap.None?
    && forall i :: 0 <= i < |r.value.riskCodes| ==>
         OwnCode(r.value.riskCodes[i], dimension)
  }

  lemma {:induction false} ScopedCodes(codes: seq<string>, prefix: string)
    requires forall i :: 0 <= i < |codes| ==> WellFormedCode(codes[i])
    ensures forall i :: 0 <= i < |Scoped(codes, prefix)| ==>
      WellFormedCode(Scoped(codes, prefix)[i]) && prefix <= Scoped(codes, prefix)[i]
  {
    if codes != [] {
      ScopedCodes(codes[..|codes| - 1], prefix);
    }
  }

  lemma PrefixInAlphabet(dimension: string)
    requires dimension in ALL_DIMENSIONS
    ensures InAlphabet(Prefix(dimension)) && Prefix(dimension) != ""
  {
    assert forall i :: 0 <= i < |dimension| ==> 'a' <= dimension[i] <= 'z';
  }

  lemma AgeScoreInRange(days: nat)
    ensures 0 <= AgeScore(days) <= 100
  {
    assert (100 * days) as real / RAMP_DAYS as real >= 0.0;
  }

  lemma StabilityScoreInRange(changes: nat)
    ensures 0 <= StabilityScore(changes) <= 100
  {
    var d := (1 + changes) as real;
    assert 0.0 <= 100.0 / d <= 100.0 by {
      assert 100.0 / d * d == 100.0;
    }
  }

  predicate OwnCode(code: string, dimension: string) {
    WellFormedCode(code) && Prefix(dimension) <= code
  }

  lemma Prefixes()
    ensures Prefix(IDENTITY) == IDENTITY_CODE && InAlphabet(IDENTITY_CODE)
    ensures Prefix(INTEGRITY) == INTEGRITY_CODE && InAlphabet(INTEGRITY_CODE)
  {
  }

  lemma SuffixesInAlphabet()
    ensures InAlphabet("CERT_MISSING") && InAlphabet("CERT_DV_ONLY") && InAlphabet("DNSSEC_BROKEN")
    ensures InAlphabet("AGENT_NEW") && InAlphabet("VERSION_CHURN_HIGH")
    ensures InAlphabet("SERVER_CERT_FINGERPRINT_DRIFT") && InAlphabet("IDENTITY_CERT_FINGERPRINT_DRIFT")
    ensures InAlphabet("DNS_ANS_DRIFT") && InAlphabet("DNS_ANS_BADGE_DRIFT")
  {
  }

  lemma JoinedCode(dimension: string, suffix: string)
    requires InAlphabet(Prefix(dimension)) && InAlphabet(suffix)
    ensures OwnCode(Prefix(dimension) + suffix, dimension)
  {
  }

  /** Every built-in code names the dimension of the signal that raises it. */
  lemma BuiltInCodes()
    ensures OwnCode(RISK_CERT_MISSING, IDENTITY) && OwnCode(RISK_CERT_DV_ONLY, IDENTITY)
    ensures OwnCode(RISK_DNSSEC_BROKEN, INTEGRITY) && OwnCode(RISK_AGENT_NEW, INTEGRITY)
    ensures OwnCode(RISK_VERSION_CHURN_HIGH, INTEGRITY)
    ensures OwnCode(RISK_SERVER_CERT_FP_DRIFT, INTEGRITY) && OwnCode(RISK_IDENTITY_CERT_FP_DRIFT, INTEGRITY)
    ensures OwnCode(RISK_DNS_ANS_DRIFT, INTEGRITY) && OwnCode(RISK_DNS_ANS_BADGE_DRIFT, INTEGRITY)
  {
    Prefixes();
    SuffixesInAlphabet();
    JoinedCode(IDENTITY, "CERT_MISSING");
    JoinedCode(IDENTITY, "CERT_DV_ONLY");
    JoinedCode(INTEGRITY, "DNSSEC_BROKEN");
    JoinedCode(INTEGRITY, "AGENT_NEW");
    JoinedCode(INTEGRITY, "VERSION_CHURN_HIGH");
    JoinedCode(INTEGRITY, "SERVER_CERT_FINGERPRINT_DRIFT");
    JoinedCode(INTEGRITY, "IDENTITY_CERT_FINGERPRINT_DRIFT");
    JoinedCode(INTEGRITY, "DNS_ANS_DRIFT");
    JoinedCode(INTEGRITY, "DNS_ANS_BADGE_DRIFT");
  }

  lemma DriftCode(s: Shipped)
    requires s.Drift? && Configured(s)
    ensures OwnCode(s.code, INTEGRITY)
  {
    BuiltInCodes();
  }

  lemma ScoreClean(id: string, dimension: string, vendor: string, threshold: int, seen: Option<Observation>)
    requires dimension in ALL_DIMENSIONS && InAlphabet(vendor)
    requires seen.Some? && seen.value.value.score.Some? && ValidScore(seen.value.value.score.value, Prefix(dimension))
    ensures Clean(EvaluateScore(id, dimension, vendor, threshold, seen), dimension)
  {
    var v := seen.value.value.score.value;
    ScopedCodes(v.riskCodes, Prefix(dimension));
    PrefixInAlphabet(dimension);
    var low := Prefix(dimension) + vendor + "_SCORE_LOW";
    assert InAlphabet("_SCORE_LOW");
    assert InAlphabet(low) && Prefix(dimension) <= low;
  }

  lemma CertTypeClean(seen: Option<Observation>)
    requires seen.Some? ==> seen.value.value.certType.Some?
    ensures Clean(EvaluateCertType(seen), IDENTITY)
  {
    BuiltInCodes();
  }

  lemma DnsClean(seen: Option<Observation>)
    requires seen.Some? ==> seen.value.value.dns.Some?
    ensures Clean(EvaluateDns(seen), INTEGRITY)
  {
    BuiltInCodes();
  }

  lemma AgeClean(now: Instant, agent: Agent)
    ensures Clean(EvaluateAge(now, agent), INTEGRITY)
  {
    AgeScoreInRange(AgeDays(now, agent.firstSeen));
    BuiltInCodes();
  }

  lemma VersionsClean(seen: Option<Observation>)
    requires seen.Some? ==> seen.value.value.versionChanges.Some? && seen.value.value.versionChanges.value >= 0
    ensures Clean(EvaluateVersions(seen), INTEGRITY)
  {
    if seen.Some? {
      StabilityScoreInRange(seen.value.value.versionChanges.value);
    }
    BuiltInCodes();
  }

  lemma DriftClean(id: string, subject: string, code: string, seen: Option<Observation>)
    requires OwnCode(code, INTEGRITY)
    requires seen.Some? ==> seen.value.value.drift.Some?
    ensures Clean(EvaluateDrift(id, subject, code, seen), INTEGRITY)
  {
  }

  /** An accepted value is scored without error, within the scale and with
      well-formed codes of the signal's own dimension. */
  lemma AcceptedValuesScore(s: Shipped, agent: Agent, seen: Option<Observation>)
    requires Configured(s)
    requires seen.Some? && !s.AgentAge? ==> Validates(s, seen.value.value)
    requires seen.None? ==> !s.ProviderScore?
    ensures Clean(Evaluates(s, agent, seen), DimensionOfShipped(s))
  {
    match s {
      case AgentAge(now) => AgeClean(now, agent);
      case VersionStability => VersionsClean(seen);
      case CertType => CertTypeClean(seen);
      case DnsSecurity => DnsClean(seen);
      case Drift(id, subject, code, _) =>
        DriftCode(s);
        DriftClean(id, subject, code, seen);
      case ProviderScore(id, dimension, vendor, threshold) =>
        ScoreClean(id, dimension, vendor, threshold, seen);
    }
  }

  // ----- the two score curves

  /** The ramp never falls as an agent ages, and tops out at exactly 180 days. */
  lemma AgeScoreRises(days: nat, more: nat)
    requires days <= more
    ensures AgeScore(days) <= AgeScore(more)
    ensures AgeScore(days) == 100 <==> days >= RAMP_DAYS
  {
    assert (100 * days) as real / 180.0 <= (100 * more) as real / 180.0;
  }

  /** Churn only costs: the decay is monotone, and only no change scores 100. */
  lemma StabilityScoreFalls(changes: nat, more: nat)
    requires changes <= more
    ensures StabilityScore(more) <= StabilityScore(changes)
    ensures StabilityScore(changes) == 100 <==> changes == 0
  {
    var c, m := (1 + changes) as real, (1 + more) as real;
    ShareFalls(c, m);
    if changes > 0 {
      ShareFalls(2.0, c);
    }
  }

  lemma ShareFalls(c: real, m: real)
    requires 1.0 <= c <= m
    ensures 100.0 / m <= 100.0 / c
  {
    var x := 100.0 / m;
    assert x * m == 100.0;
    Scale(c, m, x);
    QuotientBetween(100.0, c, x, 100.0);
  }
}
