/** The hydrator and the prober: how a sealed baseline and a live value become a
    drift verdict, and what becomes of the verdict once imported. */
module Producers {
  import opened Text
  import opened TimeText
  import opened Domain
  import opened Tables
  import opened History
  import opened Signals
  import opened Cascade
  import opened Scoring
  import opened ScoringLaws
  import opened Shipped
  import opened Scales
  import opened Import
  import opened TlEvent

  // ----- JSON bodies, as every decoder reads them

  function NoVerdict(): DriftValue {
    DriftValue("", "", false, "", "")
  }

  function DriftJson(v: DriftValue): RawValue {
    RawValue(Some(""), Some(DnsValue(false, false)), Some(0), Some(v), None)
  }

  function CertTypeJson(t: string): RawValue {
    RawValue(Some(t), Some(DnsValue(false, false)), Some(0), Some(NoVerdict()), None)
  }

  function DnsJson(v: DnsValue): RawValue {
    RawValue(Some(""), Some(v), Some(0), Some(NoVerdict()), None)
  }

  // ----- the hydrator

  function DriftBaseline(signal: string, att: Attestations): Option<string> {
    if signal == "certfingerprint.server" then Some(att.serverCert)
    else if signal == "certfingerprint.identity" then Some(att.identityCert)
    else if signal == "dnsrecord.ans" then Some(att.ans)
    else if signal == "dnsrecord.ans-badge" then Some(att.ansBadge)
    else None
  }

  /** A fixture entry: drift signals use the observed side, raw signals the value. */
  datatype Entry = Entry(signal: string, at: Instant, value: RawValue, observed: string)

  function HydratorVerdict(expected: string, observed: string): DriftValue {
    DriftValue(expected, observed, expected == observed, "tl_attestation", "fixture")
  }

  function ProjectObservation(agent: string, entry: Entry, att: Attestations, provenance: Option<Provenance>): Observation {
    match DriftBaseline(entry.signal, att)
    case Some(expected) =>
      Observation(agent, entry.signal, entry.at, DriftJson(HydratorVerdict(expected, entry.observed)), provenance)
    case None => Observation(agent, entry.signal, entry.at, entry.value, provenance)
  }

  // ----- the prober

  datatype CertResult = CertResult(fingerprint: string, kind: string)

  /** The outcome of the live probes of one host; None is an unreachable target. */
  datatype Probes = Probes(cert: Option<CertResult>, ans: Option<string>, ansBadge: Option<string>, caa: Option<bool>)

  /** A failed probe leaves the observed side empty and never matches. */
  function ProbeVerdict(expected: string, live: Option<string>, source: string): DriftValue {
    match live
    case Some(observed) => DriftValue(expected, observed, expected == observed, "tl_attestation", source)
    case None => DriftValue(expected, "", false, "tl_attestation", source)
  }

  /** What a DNS lookup has to report: the record found, or nothing that matches. */
  function DnsDrift(expected: string, live: Option<string>): DriftValue {
    DriftValue(expected, if live.Some? then live.value else "", live == Some(expected), "tl_attestation", "live_dns_query")
  }

  method ProbeAgent(agent: string, att: Attestations, probes: Probes, at: Instant, aimId: string) returns (out: seq<Observation>)
    ensures |out| == 5
    ensures forall i :: 0 <= i < |out| ==> out[i].agent == agent && out[i].at == at
    ensures forall i :: 0 <= i < |out| ==> out[i].provenance == if aimId == "" then None else Some(Provenance(aimId, ""))
    ensures out[0].signal == "certtype"
    ensures out[0].value.certType == Some(if probes.cert.Some? then probes.cert.value.kind else "none")
    ensures out[1].signal == "certfingerprint.server"
    ensures out[1].value.drift == Some(match probes.cert
      case Some(cert) => DriftValue(att.serverCert, cert.fingerprint, att.serverCert == cert.fingerprint, "tl_attestation", "live_tls_handshake")
      case None => DriftValue(att.serverCert, "", false, "tl_attestation", "live_tls_handshake"))
    ensures out[2].signal == "dnsrecord.ans" && out[2].value.drift == Some(DnsDrift(att.ans, probes.ans))
    ensures out[3].signal == "dnsrecord.ans-badge" && out[3].value.drift == Some(DnsDrift(att.ansBadge, probes.ansBadge))
    ensures out[4].signal == "dnssecurity" && out[4].value.dns == Some(DnsValue(false, probes.caa == Some(true)))
    ensures forall i :: i == 1 || i == 2 || i == 3 ==> out[i].value == DriftJson(out[i].value.drift.value)
  {
    var provenance := if aimId == "" then None else Some(Provenance(aimId, ""));
    out := [];
    var kind, observed := "none", "";
    if probes.cert.Some? {
      kind, observed := probes.cert.value.kind, probes.cert.value.fingerprint;
    }
    out := out + [Observation(agent, "certtype", at, CertTypeJson(kind), provenance)];
    var matched := probes.cert.Some? && att.serverCert == observed;
    out := out + [Observation(agent, "certfingerprint.server", at,
      DriftJson(DriftValue(att.serverCert, observed, matched, "tl_attestation", "live_tls_handshake")), provenance)];
    out := out + [Observation(agent, "dnsrecord.ans", at,
      DriftJson(ProbeVerdict(att.ans, probes.ans, "live_dns_query")), provenance)];
    out := out + [Observation(agent, "dnsrecord.ans-badge", at,
      DriftJson(ProbeVerdict(att.ansBadge, probes.ansBadge, "live_dns_query")), provenance)];
    out := out + [Observation(agent, "dnssecurity", at, DnsJson(DnsValue(false, probes.caa == Some(true))), provenance)];
  }

  // ----- verdicts against the cross-check and the score

  /** A verdict some producer builds: by the hydrator from a fixture value, or by
      the prober from a probe that may have failed. */
  ghost predicate Built(v: DriftValue, expected: string, live: Option<string>) {
    || (live.Some? && v == HydratorVerdict(expected, live.value))
    || exists source :: v == ProbeVerdict(expected, live, source)
  }

  /** No built verdict can be refused for a false "matched". */
  lemma BuiltVerdictsPassCrossCheck(v: DriftValue, expected: string, live: Option<string>)
    requires Built(v, expected, live)
    ensures CrossChecked(v)
    ensures Validates(DNS_ANS, DriftJson(v)) && Validates(DNS_ANS_BADGE, DriftJson(v))
    ensures FingerprintOrEmpty(expected) && (live.Some? ==> FingerprintOrEmpty(live.value)) ==>
      Validates(CERT_SERVER, DriftJson(v)) && Validates(CERT_IDENTITY, DriftJson(v))
  {
  }

  function ObservationOf(agent: string, signal: string, at: Instant, v: DriftValue): Observation {
    Observation(agent, signal, at, DriftJson(v), None)
  }

  /** It scores 100 exactly when the live value was obtained and equals a
      non-empty baseline, and raises its code exactly when a baseline went
      unmatched. */
  lemma BuiltVerdictsScore(s: Shipped, agent: Agent, seen: Observation, v: DriftValue, expected: string, live: Option<string>)
    requires s.Drift? && Built(v, expected, live) && seen.value.drift == Some(v)
    ensures
      var r := Evaluates(s, agent, Some(seen));
      && r.Ok?
      && (r.value.raw == 100 <==> live.Some? && expected != "" && expected == live.value)
      && (r.value.raw != 100 ==> r.value.raw == 0)
      && (r.value.riskCodes == [s.code] <==> expected != "" && live != Some(expected))
      && (r.value.riskCodes != [s.code] ==> r.value.riskCodes == [])
  {
  }

  /** For a verdict from anyone that the import accepts: 100 means a sealed value
      that the producer calls matched, and the two sides are then equal except
      in exactly one case, an empty observed side. */
  lemma AcceptedHundred(s: Shipped, agent: Agent, seen: Observation)
    requires s.Drift? && Validates(s, seen.value)
    ensures
      var v, r := seen.value.drift.value, Evaluates(s, agent, Some(seen));
      && r.Ok? && (r.value.raw == 100 <==> v.expected != "" && v.matched)
      && (v.expected != "" && v.observed != "" ==> (r.value.raw == 100 <==> v.expected == v.observed))
      && (r.value.raw == 100 && v.expected != v.observed <==> v.expected != "" && v.matched && v.observed == "")
  {
  }

  /** That case is real: an unobserved value reported as matched is accepted and
      scores 100. */
  lemma UnobservedMatchIsAccepted(agent: Agent, at: Instant)
    ensures
      var v := DriftValue("sealed", "", true, "tl_attestation", "");
      var seen := ObservationOf(agent.id, DNS_ANS.driftId, at, v);
      Validates(DNS_ANS, seen.value) && Evaluates(DNS_ANS, agent, Some(seen)).value.raw == 100
  {
  }

  /** The hydrator pairs each of the four drift signals with its own sealed slot and
      the fixture's value, and passes the value of every other signal on. */
  lemma ProjectedVerdictIsBuilt(agent: string, entry: Entry, att: Attestations, provenance: Option<Provenance>)
    ensures
      var o := ProjectObservation(agent, entry, att, provenance);
      var other := entry.signal !in {"certfingerprint.server", "certfingerprint.identity", "dnsrecord.ans", "dnsrecord.ans-badge"};
      && o.agent == agent && o.signal == entry.signal && o.at == entry.at && o.provenance == provenance
      && (entry.signal == "certfingerprint.server" ==> Pairs(o, att.serverCert, entry.observed))
      && (entry.signal == "certfingerprint.identity" ==> Pairs(o, att.identityCert, entry.observed))
      && (entry.signal == "dnsrecord.ans" ==> Pairs(o, att.ans, entry.observed))
      && (entry.signal == "dnsrecord.ans-badge" ==> Pairs(o, att.ansBadge, entry.observed))
      && (other ==> o.value == entry.value)
  {
    assert "certfingerprint.server" != "certfingerprint.identity" && "dnsrecord.ans" != "dnsrecord.ans-badge" by {
      assert "certfingerprint.server"[16] == 's' && "certfingerprint.identity"[16] == 'i';
      assert |"dnsrecord.ans"| != |"dnsrecord.ans-badge"|;
    }
    assert "certfingerprint.server"[0] == 'c' && "certfingerprint.identity"[0] == 'c';
    assert "dnsrecord.ans"[0] == 'd' && "dnsrecord.ans-badge"[0] == 'd';
  }

  /** The observation carries the verdict on a sealed and an observed value. */
  ghost predicate Pairs(o: Observation, sealed: string, observed: string) {
    && o.value.drift == Some(DriftValue(sealed, observed, sealed == observed, "tl_attestation", "fixture"))
    && o.value == DriftJson(o.value.drift.value) && Built(o.value.drift.value, sealed, Some(observed))
  }

  /** Carried to the score: 100 exactly when the fixture's value is the sealed one of
      the signal's own slot and that slot is not empty, and the signal's code exactly
      when the slot is not empty and differs. */
  lemma ProjectedScore(s: Shipped, sealed: string, agent: Agent, entry: Entry, att: Attestations, provenance: Option<Provenance>)
    requires entry.signal == Id(s)
    requires
      || (s == CERT_SERVER && sealed == att.serverCert) || (s == CERT_IDENTITY && sealed == att.identityCert)
      || (s == DNS_ANS && sealed == att.ans) || (s == DNS_ANS_BADGE && sealed == att.ansBadge)
    ensures
      var r := Evaluates(s, agent, Some(ProjectObservation(agent.id, entry, att, provenance)));
      && r.Ok? && r.value.attestation == "tl_attested"
      && r.value.raw == (if sealed != "" && entry.observed == sealed then 100 else 0)
      && r.value.riskCodes == (if sealed != "" && entry.observed != sealed then [s.code] else [])
  {
    ProjectedVerdictIsBuilt(agent.id, entry, att, provenance);
    DriftScale(s, agent, ProjectObservation(agent.id, entry, att, provenance));
  }

  // ----- through the import into the engine

  /** Once accepted, an observation whose time sorts behind every stored one of its
      pair is what the engine reads, to the second; if its year does not have four
      digits, the engine's read of the pair fails from then on. */
  lemma ImportedObservationIsRead(reg: seq<Signal>, requests: seq<Request>, o: Observation)
    requires Refused(Serve(reg, requests).agents, reg, o, false).None?
    requires forall r :: r in Serve(reg, requests).rows && OfPair(r, o.agent, o.signal) ==> Less(r.observedAt, Stamp(o).observedAt)
    ensures LatestObservation(Serve(reg, requests + [Observations([o], {}, true)]), o.agent, o.signal)
         == if FourDigitYear(o.at) then Ok(Some(Truncated(o))) else Err(UNREADABLE_TIME)
  {
    var db := Serve(reg, requests);
    SingletonAdmitted(db.agents, reg, o);
    LaterRowIsNewest(db, Stamp(o));
    ServeOneMore(reg, requests, o, [Stamp(o)]);
    ReadBackOfStamp(o);
  }

  /** A weight of zero does not protect: one accepted observation of the signal from
      the year 10000 leaves the agent without any evaluation, which it would have if
      the signal were not registered. */
  lemma UnreadableWeightlessSignalFails(a: Agent, o: Observation, profile: Profile, t: Thresholds, now: Instant)
    requires ValidStatus(a.status) && Datable(a)
    requires o.agent == a.id && o.signal == "certtype" && o.value.certType == Some("DV") && !FourDigitYear(o.at)
    ensures
      var reg := Plugins([CertType]);
      var read := ReaderOf(Serve(reg, [] + [Agents([a], true)] + [Observations([o], {}, true)]), a.id);
      Evaluated(reg, read, a, profile, t, now).None? && Evaluated([], read, a, profile, t, now).Some?
  {
    var reg := Plugins([CertType]);
    var first := [] + [Agents([a], true)];
    ServeFirstAgent(reg, a);
    DvIsValid(o.value);
    SoleSignalAdmits(reg, a, o);
    ImportedObservationIsRead(reg, first, o);
    SoleSignalUnread(reg, ReaderOf(Serve(reg, first + [Observations([o], {}, true)]), a.id), a, profile, t, now);
  }

  lemma DvIsValid(v: RawValue)
    requires v.certType == Some("DV")
    ensures Validates(CertType, v)
  {
    assert "DV" == ["DV", "OV", "EV", "none"][0];
  }

  lemma SoleSignalAdmits(reg: seq<Signal>, a: Agent, o: Observation)
    requires |reg| == 1 && reg[0].id == o.signal && !reg[0].derived && reg[0].validate(o.value)
    requires Datable(a) && o.agent == a.id
    ensures Refused([Stored(a)], reg, o, false).None?
  {
    ScanOfStored(a);
    assert FindAgent([Stored(a)], a.id) == 0;
    assert Find(reg, o.signal) == Some(reg[0]);
  }

  lemma SoleSignalUnread(reg: seq<Signal>, read: Reader, a: Agent, profile: Profile, t: Thresholds, now: Instant)
    requires |reg| == 1 && read(reg[0].id).Err?
    ensures Evaluated(reg, read, a, profile, t, now).None? && Evaluated([], read, a, profile, t, now).Some?
  {
  }

  lemma ServeFirstAgent(reg: seq<Signal>, a: Agent)
    requires ValidStatus(a.status)
    ensures Serve(reg, [] + [Agents([a], true)]) == UpsertAgent(EMPTY, a).value
    ensures UpsertAgent(EMPTY, a).value.agents == [Stored(a)] && UpsertAgent(EMPTY, a).value.rows == []
  {
    var requests := [] + [Agents([a], true)];
    assert requests[..0] == [];
    assert [a][..0] == [] && UpsertAll(EMPTY, []) == Some(EMPTY);
    assert UpsertAll(EMPTY, [a]) == UpsertAgent(EMPTY, a);
  }

  lemma SingletonAdmitted(agents: seq<Agent>, reg: seq<Signal>, o: Observation)
    requires Refused(agents, reg, o, false).None?
    ensures FirstRefusal(agents, reg, [o], {}).None? && Known(agents, o.agent)
  {
    var verdicts := Verdicts(agents, reg, [o], {});
    assert verdicts[0].None?;
    NoRefusal(verdicts);
    LookupFinds(agents, o.agent);
  }

  lemma ServeOneMore(reg: seq<Signal>, requests: seq<Request>, o: Observation, stamped: seq<Evidence>)
    requires FirstRefusal(Serve(reg, requests).agents, reg, [o], {}).None?
    requires stamped == [Stamp(o)] && AppendAll(Serve(reg, requests), stamped).Some?
    ensures Serve(reg, requests + [Observations([o], {}, true)]) == AppendAll(Serve(reg, requests), stamped).value
  {
    var q := Observations([o], {}, true);
    assert (requests + [q])[..|requests|] == requests;
    assert StampAll([o]) == stamped;
  }

  lemma LaterRowIsNewest(db: Db, e: Evidence)
    requires Known(db.agents, e.agent)
    requires forall r :: r in db.rows && OfPair(r, e.agent, e.signal) ==> Less(r.observedAt, e.observedAt)
    ensures AppendAll(db, [e]).Some? && NewestEvidence(AppendAll(db, [e]).value, e.agent, e.signal) == Some(e)
  {
    assert [e][..0] == [] && AppendAll(db, []) == Some(db);
    LessIrreflexive(e.observedAt);
    LatestMember(db.rows, e.agent, e.signal);
    var next := AppendObservation(db, e).value;
    assert AppendAll(db, [e]) == Some(next);
    assert next.rows[..|db.rows|] == db.rows;
  }

  /** The whole way: build a verdict, import it, evaluate.  The engine can read the
      signal exactly when the observation's year has four digits.  Whenever it can
      read everything else too, the breakdown of the integrity dimension lists the
      signal, at 100 exactly when the live value was obtained and equals a non-empty
      baseline. */
  lemma VerdictReachesTheScore(shipped: seq<Shipped>, requests: seq<Request>, i: nat, agent: Agent, profile: Profile,
                               o: Observation, v: DriftValue, expected: string, live: Option<string>, t: Thresholds, now: Instant)
    requires Deployed(shipped) && i < |shipped| && shipped[i].Drift?
    requires Built(v, expected, live) && o.value == DriftJson(v) && o.agent == agent.id && o.signal == Id(shipped[i])
    requires Refused(Serve(Plugins(shipped), requests).agents, Plugins(shipped), o, false).None?
    requires forall r :: r in Serve(Plugins(shipped), requests).rows && OfPair(r, o.agent, o.signal) ==>
      Less(r.observedAt, Stamp(o).observedAt)
    ensures
      var reg := Plugins(shipped);
      var read := ReaderOf(Serve(reg, requests + [Observations([o], {}, true)]), agent.id);
      var c := Contribute(reg[i], agent, Seen(read, reg[i].id), profile);
      && (read(reg[i].id).Ok? <==> FourDigitYear(o.at))
      && (FourDigitYear(o.at) ==>
            && (c.score.raw == 100 <==> live.Some? && expected != "" && expected == live.value)
            && (c.risks == [shipped[i].code] <==> expected != "" && live != Some(expected))
            && c.score.provenance == o.provenance)
      && var e := Evaluated(reg, read, agent, profile, t, now);
      && (e.Some? <==> Readable(reg, read))
      && (e.Some? ==>
            && FourDigitYear(o.at)
            && e.value.dimensions[0].dimension == INTEGRITY && c.score in e.value.dimensions[0].signals)
  {
    ImportedObservationIsRead(Plugins(shipped), requests, o);
    var reg := Plugins(shipped);
    EntryIsListed(reg, i, agent, ReaderOf(Serve(reg, requests + [Observations([o], {}, true)]), agent.id), profile);
    if FourDigitYear(o.at) {
      BuiltVerdictsScore(shipped[i], agent, Truncated(o), v, expected, live);
    }
  }
}
