/** What each shipped signal says about each accepted value, in plain numbers and
    codes. */
module Scales {
  import opened Text
  import opened TimeText
  import opened Decimal
  import opened Domain
  import opened Signals
  import opened Scoring
  import opened ScoringLaws
  import opened Shipped

  /** Scores raw with the explanation and raises the codes, without evidence tier or
      cap. */
  predicate Says(r: Result<SignalResult>, raw: int, text: string, codes: seq<string>) {
    && r.Ok? && r.value.raw == raw && r.value.explanation == text && r.value.riskCodes == codes
    && r.value.attestation == "unattested" && r.value.cap == None
  }

  // ----- identity of the signals

  lemma Identities(now: Instant)
    ensures Id(CertType) == "certtype" && Id(DnsSecurity) == "dnssecurity"
    ensures Id(AgentAge(now)) == "agentage" && Id(VersionStability) == "versionstability"
    ensures Id(CERT_SERVER) == "certfingerprint.server" && Id(CERT_IDENTITY) == "certfingerprint.identity"
    ensures Id(DNS_ANS) == "dnsrecord.ans" && Id(DNS_ANS_BADGE) == "dnsrecord.ans-badge"
  {
  }

  /** Only the age is derived, only a provider's absence means nothing, and only the
      certificate type and providers speak outside integrity. */
  lemma Traits(s: Shipped)
    ensures
      var sig := AsSignal(s);
      && (sig.derived <==> s.AgentAge?) && (sig.absenceInformative <==> !s.ProviderScore?)
      && sig.dimension == (if s.CertType? then "identity" else if s.ProviderScore? then s.scoreDimension else "integrity")
  {
  }

  lemma DriftCodes()
    ensures CERT_SERVER.code == "INTEGRITY_" + "SERVER_CERT_FINGERPRINT_DRIFT"
    ensures CERT_IDENTITY.code == "INTEGRITY_" + "IDENTITY_CERT_FINGERPRINT_DRIFT"
    ensures DNS_ANS.code == "INTEGRITY_" + "DNS_ANS_DRIFT" && DNS_ANS_BADGE.code == "INTEGRITY_" + "DNS_ANS_BADGE_DRIFT"
    ensures CERT_SERVER.fingerprints && CERT_IDENTITY.fingerprints && !DNS_ANS.fingerprints && !DNS_ANS_BADGE.fingerprints
  {
  }

  // ----- certificate type

  lemma MissingCertScale(agent: Agent)
    ensures Says(Evaluates(CertType, agent, None), 0, "no certificate observed", ["IDENTITY_" + "CERT_MISSING"])
  {
  }

  lemma CertTypeScale(agent: Agent, o: Observation)
    ensures o.value.certType == Some("EV") ==> Says(Evaluates(CertType, agent, Some(o)), 100, "EV certificate; raw 100", [])
    ensures o.value.certType == Some("OV") ==> Says(Evaluates(CertType, agent, Some(o)), 70, "OV certificate; raw 70", [])
    ensures o.value.certType == Some("DV") ==> Says(Evaluates(CertType, agent, Some(o)), 40, "DV certificate; raw 40", ["IDENTITY_" + "CERT_DV_ONLY"])
    ensures o.value.certType == Some("none") ==> Says(Evaluates(CertType, agent, Some(o)), 0, "no certificate; raw 0", [])
    ensures o.value.certType == None ==> Evaluates(CertType, agent, Some(o)).Err?
  {
    assert "EV"[0] == 'E' && "OV"[0] == 'O' && "DV"[0] == 'D' && "none"[0] == 'n';
  }

  lemma CertTypeAccepts(v: RawValue)
    ensures Validates(CertType, v) <==>
      v.certType == Some("EV") || v.certType == Some("OV") || v.certType == Some("DV") || v.certType == Some("none")
  {
    assert ["DV", "OV", "EV", "none"] == ["DV"] + ["OV"] + ["EV"] + ["none"];
  }

  // ----- DNS security

  /** Fifty for each of the two, and the code exactly when DNSSEC is missing. */
  lemma DnsScale(agent: Agent, o: Observation)
    ensures Says(Evaluates(DnsSecurity, agent, None), 0, "no DNS security observed", [])
    ensures o.value.dns.Some? ==>
      Says(Evaluates(DnsSecurity, agent, Some(o)),
           (if o.value.dns.value.dnssec then 50 else 0) + (if o.value.dns.value.caa then 50 else 0),
           match o.value.dns.value
           case DnsValue(true, true) => "dnssec + caa present"
           case DnsValue(true, false) => "dnssec present; caa missing"
           case DnsValue(false, true) => "caa present; dnssec missing"
           case DnsValue(false, false) => "no dnssec or caa",
           if o.value.dns.value.dnssec then [] else ["INTEGRITY_" + "DNSSEC_BROKEN"])
    ensures Validates(DnsSecurity, o.value) <==> o.value.dns.Some?
    ensures o.value.dns == None ==> Evaluates(DnsSecurity, agent, Some(o)).Err?
  {
  }

  // ----- age

  const DAY := 86_400_000_000_000

  /** Only whole days count: 100 from 180 days on, the rounded share of 180 before,
      0 for an agent from the future; and new for less than 45 days. */
  lemma AgeScale(now: Instant, agent: Agent, seen: Option<Observation>)
    ensures
      var r, age := Evaluates(AgentAge(now), agent, seen), now - agent.firstSeen;
      && Says(r, r.value.raw, Itoa(if age < 0 then 0 else age / DAY) + " days old; ramp to 100 at 180", if age < 45 * DAY then ["INTEGRITY_" + "AGENT_NEW"] else [])
      && (age < 0 ==> r.value.raw == 0)
      && (0 <= age < 180 * DAY ==> 200 * (age / DAY) - 180 < 360 * r.value.raw <= 200 * (age / DAY) + 180)
      && (age >= 180 * DAY ==> r.value.raw == 100)
    ensures forall v :: !Validates(AgentAge(now), v)
  {
    var age := now - agent.firstSeen;
    AgeRounds(AgeDays(now, agent.firstSeen));
    if age >= 0 {
      WholeDays(age, 45);
      WholeDays(age, 180);
    }
  }

  lemma WholeDays(age: int, n: int)
    requires age >= 0 && n > 0
    ensures age / DAY < n <==> age < n * DAY
  {
  }

  lemma AgeRounds(days: nat)
    ensures days < 180 ==> 200 * days - 180 < 360 * AgeScore(days) <= 200 * days + 180
    ensures days >= 180 ==> AgeScore(days) == 100
    ensures AgeScore(days) < 25 <==> days < 45
    ensures days == 0 ==> AgeScore(days) == 0
  {
    var x := (100 * days) as real / 180.0;
    assert x * 180.0 == (100 * days) as real;
    var m := Round(x);
    assert x - 0.5 < m as real <= x + 0.5;
    assert (360 * m) as real == m as real * 360.0;
    assert (200 * days) as real == x * 360.0;
    assert 200 * days - 180 < 360 * m <= 200 * days + 180;
  }

  // ----- version stability

  /** The rounded share of 100 that n changes leave, and churn from four on. */
  lemma VersionScale(agent: Agent, o: Observation)
    ensures Says(Evaluates(VersionStability, agent, None), 0, "no version observation", [])
    ensures o.value.versionChanges.Some? && o.value.versionChanges.value >= 0 ==>
      var r, n := Evaluates(VersionStability, agent, Some(o)), o.value.versionChanges.value;
      && Says(r, r.value.raw, Itoa(n) + " version changes in 30d", if n >= 4 then ["INTEGRITY_" + "VERSION_CHURN_HIGH"] else [])
      && 200 - (1 + n) < 2 * r.value.raw * (1 + n) <= 200 + (1 + n)
    ensures Validates(VersionStability, o.value) <==> o.value.versionChanges.Some? && o.value.versionChanges.value >= 0
    ensures o.value.versionChanges == None ==> Evaluates(VersionStability, agent, Some(o)).Err?
  {
    if o.value.versionChanges.Some? && o.value.versionChanges.value >= 0 {
      StabilityRounds(o.value.versionChanges.value);
    }
  }

  lemma StabilityRounds(n: nat)
    ensures 200 - (1 + n) < 2 * StabilityScore(n) * (1 + n) <= 200 + (1 + n)
  {
    var d := (1 + n) as real;
    var m := StabilityScore(n);
    RoundedShare(d, m);
    RealProduct(m, 1 + n);
    assert 2 * m * (1 + n) == 2 * (m * (1 + n));
  }

  lemma RoundedShare(d: real, m: int)
    requires d >= 1.0 && m == Round(100.0 / d)
    ensures 200.0 - d < 2.0 * (m as real * d) <= 200.0 + d
  {
    var x := 100.0 / d;
    assert x * d == 100.0;
    assert x - 0.5 < m as real <= x + 0.5;
    Scale(m as real, x + 0.5, d);
    ScaleStrictly(x - 0.5, m as real, d);
    assert (x + 0.5) * d == x * d + 0.5 * d && (x - 0.5) * d == x * d - 0.5 * d;
  }

  lemma {:induction false} RealProduct(m: int, k: nat)
    ensures (m * k) as real == m as real * k as real
  {
    if k > 0 {
      RealProduct(m, k - 1);
      assert m * k == m * (k - 1) + m;
      assert m as real * k as real == m as real * (k - 1) as real + m as real;
    }
  }

  lemma ScaleStrictly(a: real, b: real, w: real)
    requires a < b && w > 0.0
    ensures a * w < b * w
  {
    assert (b - a) * w > 0.0;
  }

  // ----- drift

  /** A sealed value scores 100 when matched and raises the code when not; without
      one there is nothing to compare.  The evidence tier is that of the seal. */
  lemma DriftScale(s: Shipped, agent: Agent, o: Observation)
    requires s.Drift?
    ensures Says(Evaluates(s, agent, None), 0, "no observation", [])
    ensures o.value.drift.Some? ==>
      var v, r := o.value.drift.value, Evaluates(s, agent, Some(o));
      && r.Ok? && r.value.cap == None
      && r.value.raw == (if v.expected != "" && v.matched then 100 else 0)
      && r.value.riskCodes == (if v.expected != "" && !v.matched then [s.code] else [])
      && r.value.attestation ==
           (if v.expectedSource == "tl_attestation" then "tl_attested"
            else if v.expectedSource == "trust_card_hash" then "card_attested" else "unattested")
      && r.value.explanation ==
           (if v.expected == "" then s.subject + ": not sealed"
            else if v.matched then s.subject + " matches sealed value"
            else s.subject + " drift: sealed=" + v.expected + " observed=" + v.observed)
    ensures o.value.drift == None ==> Evaluates(s, agent, Some(o)).Err?
  {
  }

  /** A fingerprint signal takes empty sides and SHA-256 fingerprints only; any drift
      signal refuses a matched flag that contradicts two given sides. */
  lemma DriftAccepts(s: Shipped, v: RawValue)
    requires s.Drift?
    ensures Validates(s, v) <==>
      && v.drift.Some?
      && (s.fingerprints ==> IsFingerprintOrEmpty(v.drift.value.expected) && IsFingerprintOrEmpty(v.drift.value.observed))
      && !(v.drift.value.expected != "" && v.drift.value.observed != ""
           && v.drift.value.matched != (v.drift.value.expected == v.drift.value.observed))
  {
    if v.drift.Some? {
      FingerprintShape(v.drift.value.expected);
      FingerprintShape(v.drift.value.observed);
    }
  }

  ghost predicate IsFingerprintOrEmpty(s: string) {
    s == "" || exists hex: string :: s == "SHA256:" + hex && |hex| == 64 && AllHex(hex)
  }

  predicate AllHex(s: string) {
    forall i :: 0 <= i < |s| ==> '0' <= s[i] <= '9' || 'a' <= s[i] <= 'f' || 'A' <= s[i] <= 'F'
  }

  lemma FingerprintShape(s: string)
    ensures FingerprintOrEmpty(s) <==> IsFingerprintOrEmpty(s)
  {
    if ValidFingerprint(s) {
      var hex := s[7..];
      assert s == "SHA256:" + hex;
      assert AllHex(hex);
    }
    if hex: string :| s == "SHA256:" + hex && |hex| == 64 && AllHex(hex) {
      assert forall i :: 7 <= i < |s| ==> s[i] == hex[i - 7];
    }
  }

  // ----- provider scores

  lemma PrefixNames()
    ensures Prefix("integrity") == "INTEGRITY_" && Prefix("identity") == "IDENTITY_" && Prefix("solvency") == "SOLVENCY_"
    ensures Prefix("behavior") == "BEHAVIOR_" && Prefix("safety") == "SAFETY_"
  {
  }

  lemma {:induction false} ScopedKeepsAll(codes: seq<string>, prefix: string)
    requires forall i :: 0 <= i < |codes| ==> prefix <= codes[i]
    ensures Scoped(codes, prefix) == codes
  {
    if codes != [] {
      ScopedKeepsAll(codes[..|codes| - 1], prefix);
    }
  }

  /** An accepted score is passed on with all its codes, and the low-score code is
      added exactly below the threshold, 70 unless configured. */
  lemma ProviderScale(id: string, dimension: string, threshold: Option<int>, agent: Agent, o: Observation)
    requires Validates(NewProviderScore(id, dimension, threshold), o.value)
    ensures
      var s := NewProviderScore(id, dimension, threshold);
      var v, r := o.value.score.value, Evaluates(s, agent, Some(o));
      var bar := if threshold == None then 70 else threshold.value;
      && Says(r, v.score.value, if v.explanation != "" then v.explanation else id + " score " + Itoa(v.score.value) + "/100",
              v.riskCodes + if v.score.value < bar then [Prefix(dimension) + Sanitized(VendorSegment(id)) + "_SCORE_LOW"] else [])
      && (threshold == Some(0) ==> r.value.riskCodes == v.riskCodes)
  {
    ScopedKeepsAll(o.value.score.value.riskCodes, Prefix(dimension));
    assert o.value.score.value.riskCodes + [] == o.value.score.value.riskCodes;
  }

  lemma ProviderAccepts(id: string, dimension: string, threshold: Option<int>, v: RawValue)
    ensures Validates(NewProviderScore(id, dimension, threshold), v) <==>
      && v.score.Some? && v.score.value.score.Some? && 0 <= v.score.value.score.value <= 100
      && |v.score.value.riskCodes| <= 16
      && forall i :: 0 <= i < |v.score.value.riskCodes| ==>
           var code := v.score.value.riskCodes[i];
           && code != "" && Prefix(dimension) <= code
           && forall j :: 0 <= j < |code| ==> 'A' <= code[j] <= 'Z' || '0' <= code[j] <= '9' || code[j] == '_'
  {
  }

  predicate Dotless(s: string) {
    forall i :: 0 <= i < |s| ==> s[i] != '.'
  }

  lemma LastDotAt(s: string, k: nat)
    requires k < |s| && s[k] == '.' && forall j :: k < j < |s| ==> s[j] != '.'
    ensures LastDot(s) == k
  {
    var i := LastDot(s);
  }

  lemma LastDotOf(s: string, head: string, tail: string)
    requires Dotless(tail) && s == head + "." + tail
    ensures LastDot(s) == |head|
  {
    forall j | |head| < j < |s|
      ensures s[j] != '.'
    {
      assert s[j] == tail[j - |head| - 1];
    }
    LastDotAt(s, |head|);
  }

  lemma NoLastDot(s: string)
    requires Dotless(s)
    ensures LastDot(s) == |s|
  {
  }

  /** The vendor is what is left of the dimension and the name, dots and all; of an
      id with one dot it is the part before it, and an id without dots is its own. */
  lemma VendorOf(vendor: string, dimension: string, name: string)
    requires Dotless(dimension) && Dotless(name)
    ensures VendorSegment(vendor + "." + dimension + "." + name) == vendor
    ensures VendorSegment(dimension + "." + name) == dimension
    ensures VendorSegment(name) == name
  {
    LastDotOf(vendor + "." + dimension + "." + name, vendor + "." + dimension, name);
    LastDotOf(vendor + "." + dimension, vendor, dimension);
    LastDotOf(dimension + "." + name, dimension, name);
    NoLastDot(dimension);
    NoLastDot(name);
    assert (vendor + "." + dimension + "." + name)[..|vendor + "." + dimension|] == vendor + "." + dimension;
    assert (vendor + "." + dimension)[..|vendor|] == vendor;
    assert (dimension + "." + name)[..|dimension|] == dimension;
  }

  /** Letters are raised, digits and '_' stay, and all else in ASCII becomes '_'. */
  lemma SanitizedCharwise(s: string, i: nat)
    requires i < |s|
    ensures 'a' <= s[i] <= 'z' ==> Sanitized(s)[i] as int == s[i] as int - 32
    ensures 'A' <= s[i] <= 'Z' || '0' <= s[i] <= '9' || s[i] == '_' ==> Sanitized(s)[i] == s[i]
    ensures s[i] as int < 128 && !('a' <= s[i] <= 'z' || 'A' <= s[i] <= 'Z' || '0' <= s[i] <= '9') ==> Sanitized(s)[i] == '_'
  {
  }
}
