/** Transparency-log badges: two wire schemas, one event. */
module Badges {
  import opened Text
  import opened TlEvent

  // ----- timestamps

  /** The first position of a character at or after i, or |s|. */
  function IndexFrom(s: string, stop: char -> bool, i: nat): (r: nat)
    requires i <= |s|
    ensures i <= r <= |s| && (r < |s| ==> stop(s[r]))
    ensures forall j :: i <= j < r ==> !stop(s[j])
    decreases |s| - i
  {
    if i == |s| || stop(s[i]) then i else IndexFrom(s, stop, i + 1)
  }

  predicate Dot(c: char) { c == '.' }

  predicate Zone(c: char) { c == 'Z' || c == '+' || c == '-' }

  /** Cuts from the first dot to the zone designator. */
  function Normalized(s: string): string {
    var dot := IndexFrom(s, Dot, 0);
    if dot == |s| then s else s[..dot] + s[IndexFrom(s, Zone, dot + 1)..]
  }

  method NormalizeRfc3339(s: string) returns (r: string)
    ensures r == Normalized(s)
  {
    if s == "" {
      return "";
    }
    var dot := IndexFrom(s, Dot, 0);
    if dot == |s| {
      return s;
    }
    var end := |s|;
    var i := dot + 1;
    while i < |s|
      invariant dot + 1 <= i <= |s| && end == |s|
      invariant IndexFrom(s, Zone, dot + 1) == IndexFrom(s, Zone, i)
    {
      if Zone(s[i]) {
        end := i;
        break;
      }
      i := i + 1;
    }
    r := s[..dot] + s[end..];
  }

  /** Text without a dot is left alone, and without a zone everything from the dot on
      is cut. */
  lemma NothingElseIsCut(s: string, rest: string)
    requires forall i :: 0 <= i < |s| ==> s[i] != '.'
    ensures Normalized(s) == s
    ensures (forall i :: 0 <= i < |rest| ==> rest[i] != 'Z' && rest[i] != '+' && rest[i] != '-') ==> Normalized(s + "." + rest) == s
  {
    var t := s + "." + rest;
    assert t[|s|] == '.';
    assert forall j :: 0 <= j < |s| ==> t[j] == s[j];
    assert IndexFrom(t, Dot, 0) == |s|;
    if forall i :: 0 <= i < |rest| ==> rest[i] != 'Z' && rest[i] != '+' && rest[i] != '-' {
      assert forall j :: |s| + 1 <= j < |t| ==> t[j] == rest[j - |s| - 1];
      assert IndexFrom(t, Zone, |s| + 1) == |t|;
      assert t[..|s|] == s && t[|t|..] == "";
    }
  }

  /** A fraction between the seconds and the zone is cut out, and nothing else. */
  lemma FractionIsCut(seconds: string, fraction: string, zone: string)
    requires forall i :: 0 <= i < |seconds| ==> seconds[i] != '.'
    requires forall i :: 0 <= i < |fraction| ==> fraction[i] != 'Z' && fraction[i] != '+' && fraction[i] != '-'
    requires zone != "" && (zone[0] == 'Z' || zone[0] == '+' || zone[0] == '-')
    ensures Normalized(seconds + "." + fraction + zone) == seconds + zone
  {
    var s := seconds + "." + fraction + zone;
    var dot := IndexFrom(s, Dot, 0);
    assert s[|seconds|] == '.';
    assert forall j :: 0 <= j < |seconds| ==> s[j] == seconds[j];
    assert dot == |seconds|;
    var end := IndexFrom(s, Zone, dot + 1);
    var z := |seconds| + 1 + |fraction|;
    assert s[z] == zone[0];
    assert forall j :: dot + 1 <= j < z ==> s[j] == fraction[j - dot - 1];
    assert end == z;
    assert s[..dot] == seconds && s[z..] == zone;
  }

  // ----- schemas

  datatype WireAgent = WireAgent(host: string, version: string, name: string)

  /** V1: one certificate per slot, DNS records keyed by name. */
  datatype EventV1 = EventV1(
    ansId: string, issuedAt: string, timestamp: string, agent: WireAgent,
    serverCert: string, identityCert: string, dns: map<string, string>, dnssecStatus: string)

  datatype Cert = Cert(fingerprint: string, notAfter: string)

  datatype DnsRecord = DnsRecord(name: string, data: string)

  /** V2: certificate arrays and a list of DNS records. */
  datatype EventV2 = EventV2(
    ansId: string, issuedAt: string, timestamp: string, agent: WireAgent,
    serverCerts: seq<Cert>, identityCerts: seq<Cert>, dns: seq<DnsRecord>, dnssecStatus: string)

  function Lookup(dns: map<string, string>, name: string): string {
    if name in dns then dns[name] else ""
  }

  function MapEvent(e: EventV1, status: string): Event {
    Event(e.ansId, status, "", Normalized(e.issuedAt), Normalized(e.timestamp),
          AgentBlock(e.agent.host, e.agent.version, e.agent.name, "", [], [], []),
          Attestations(e.serverCert, e.identityCert,
                       Lookup(e.dns, "_ans." + e.agent.host), Lookup(e.dns, "_ans-badge." + e.agent.host), e.dnssecStatus))
  }

  /** Field by field what the first schema maps to; a record that is not there is
      empty. */
  lemma MapEventMeans(e: EventV1, status: string)
    ensures
      var r := MapEvent(e, status);
      && r.ansId == e.ansId && r.status == status && r.providerId == ""
      && r.firstSeen == Normalized(e.issuedAt) && r.lastUpdated == Normalized(e.timestamp)
      && r.agent.host == e.agent.host && r.agent.version == e.agent.version && r.agent.name == e.agent.name
      && r.attestations.serverCert == e.serverCert && r.attestations.identityCert == e.identityCert
      && r.attestations.ans == (if "_ans." + e.agent.host in e.dns then e.dns["_ans." + e.agent.host] else "")
      && r.attestations.ansBadge == (if "_ans-badge." + e.agent.host in e.dns then e.dns["_ans-badge." + e.agent.host] else "")
      && r.attestations.dnssecStatus == e.dnssecStatus
  {
  }

  /** The records as a map; a repeated name keeps its last data. */
  function DnsMap(records: seq<DnsRecord>): map<string, string> {
    if records == [] then map[]
    else DnsMap(records[..|records| - 1])[records[|records| - 1].name := records[|records| - 1].data]
  }

  /** time.Parse on a certificate's notAfter: an instant, or None. */
  type Clock = string -> Option<int>

  /** Entry k expires last among the entries whose expiry parses, and no earlier
      one expires with it; when none parses it is the first entry. */
  predicate Primary(certs: seq<Cert>, parse: Clock, k: int) {
    && 0 <= k < |certs|
    && if forall i :: 0 <= i < |certs| ==> parse(certs[i].notAfter).None? then k == 0
       else
         && parse(certs[k].notAfter).Some?
         && (forall i :: 0 <= i < |certs| && parse(certs[i].notAfter).Some? ==>
               parse(certs[i].notAfter).value <= parse(certs[k].notAfter).value)
         && (forall i :: 0 <= i < k && parse(certs[i].notAfter).Some? ==>
               parse(certs[i].notAfter).value < parse(certs[k].notAfter).value)
  }

  lemma PrimaryIsUnique(certs: seq<Cert>, parse: Clock, j: int, k: int)
    requires Primary(certs, parse, j) && Primary(certs, parse, k)
    ensures j == k
  {
  }

  method PrimaryCertFingerprint(certs: seq<Cert>, parse: Clock) returns (fingerprint: string)
    ensures certs == [] ==> fingerprint == ""
    ensures certs != [] ==> exists k :: Primary(certs, parse, k) && fingerprint == certs[k].fingerprint
  {
    if certs == [] {
      return "";
    }
    var bestIdx, bestTime, bestValid := 0, 0, false;
    for i := 0 to |certs|
      invariant 0 <= bestIdx < |certs|
      invariant !bestValid ==> bestIdx == 0 && forall j :: 0 <= j < i ==> parse(certs[j].notAfter).None?
      invariant bestValid ==>
        && bestIdx < i && parse(certs[bestIdx].notAfter) == Some(bestTime)
        && (forall j :: 0 <= j < i && parse(certs[j].notAfter).Some? ==> parse(certs[j].notAfter).value <= bestTime)
        && (forall j :: 0 <= j < bestIdx && parse(certs[j].notAfter).Some? ==> parse(certs[j].notAfter).value < bestTime)
    {
      var t := parse(certs[i].notAfter);
      if t.Some? && (!bestValid || t.value > bestTime) {
        bestIdx, bestTime, bestValid := i, t.value, true;
      }
    }
    assert Primary(certs, parse, bestIdx);
    fingerprint := certs[bestIdx].fingerprint;
  }

  /** The fingerprint the loop above yields. */
  ghost predicate Chosen(certs: seq<Cert>, parse: Clock, fingerprint: string) {
    if certs == [] then fingerprint == ""
    else exists k :: Primary(certs, parse, k) && fingerprint == certs[k].fingerprint
  }

  /** What the V2 mapper yields. */
  ghost predicate MappedV2(e: EventV2, status: string, parse: Clock, r: Event) {
    && r.ansId == e.ansId && r.status == status && r.providerId == ""
    && r.firstSeen == Normalized(e.issuedAt) && r.lastUpdated == Normalized(e.timestamp)
    && r.agent == AgentBlock(e.agent.host, e.agent.version, e.agent.name, "", [], [], [])
    && Chosen(e.serverCerts, parse, r.attestations.serverCert)
    && Chosen(e.identityCerts, parse, r.attestations.identityCert)
    && r.attestations.ans == Lookup(DnsMap(e.dns), "_ans." + e.agent.host)
    && r.attestations.ansBadge == Lookup(DnsMap(e.dns), "_ans-badge." + e.agent.host)
    && r.attestations.dnssecStatus == e.dnssecStatus
  }

  method MapEventV2(e: EventV2, status: string, parse: Clock) returns (r: Event)
    ensures MappedV2(e, status, parse, r)
  {
    var dns: map<string, string> := map[];
    for i := 0 to |e.dns|
      invariant dns == DnsMap(e.dns[..i])
    {
      assert e.dns[..i + 1][..i] == e.dns[..i];
      dns := dns[e.dns[i].name := e.dns[i].data];
    }
    assert e.dns[..|e.dns|] == e.dns;
    var server := PrimaryCertFingerprint(e.serverCerts, parse);
    var identity := PrimaryCertFingerprint(e.identityCerts, parse);
    var first := NormalizeRfc3339(e.issuedAt);
    var last := NormalizeRfc3339(e.timestamp);
    r := Event(e.ansId, status, "", first, last,
               AgentBlock(e.agent.host, e.agent.version, e.agent.name, "", [], [], []),
               Attestations(server, identity, Lookup(dns, "_ans." + e.agent.host),
                            Lookup(dns, "_ans-badge." + e.agent.host), e.dnssecStatus));
  }

  // ----- agreement

  /** The list names every record of the map, and nothing else, in some order. */
  predicate Lists(records: seq<DnsRecord>, dns: map<string, string>) {
    && (forall i :: 0 <= i < |records| ==> records[i].name in dns && records[i].data == dns[records[i].name])
    && (forall name :: name in dns ==> exists i :: 0 <= i < |records| && records[i].name == name)
  }

  lemma {:induction false} DnsMapEntries(records: seq<DnsRecord>, dns: map<string, string>)
    requires forall i :: 0 <= i < |records| ==> records[i].name in dns && records[i].data == dns[records[i].name]
    ensures forall name :: name in DnsMap(records) ==> name in dns && DnsMap(records)[name] == dns[name]
    ensures forall name :: name in DnsMap(records) <==> exists i :: 0 <= i < |records| && records[i].name == name
  {
    if records != [] {
      var front := records[..|records| - 1];
      DnsMapEntries(front, dns);
      assert forall i :: 0 <= i < |front| ==> front[i] == records[i];
      forall name
        ensures name in DnsMap(records) <==> exists i :: 0 <= i < |records| && records[i].name == name
      {
        if i :| 0 <= i < |records| && records[i].name == name && i < |front| {
          assert front[i].name == name;
        }
      }
    }
  }

  /** A V1 event in V2 clothing: singleton certificate arrays with any expiry,
      and the DNS map listed in any order. */
  predicate Embeds(e: EventV1, v: EventV2, serverExpiry: string, identityExpiry: string) {
    && v.ansId == e.ansId && v.issuedAt == e.issuedAt && v.timestamp == e.timestamp && v.agent == e.agent
    && v.dnssecStatus == e.dnssecStatus
    && v.serverCerts == [Cert(e.serverCert, serverExpiry)] && v.identityCerts == [Cert(e.identityCert, identityExpiry)]
    && Lists(v.dns, e.dns)
  }

  /** The two mappers agree on it, whatever the expiries and the listing order. */
  lemma MappersAgree(e: EventV1, v: EventV2, serverExpiry: string, identityExpiry: string, status: string, parse: Clock, r: Event)
    requires Embeds(e, v, serverExpiry, identityExpiry) && MappedV2(v, status, parse, r)
    ensures r == MapEvent(e, status)
  {
    DnsMapEntries(v.dns, e.dns);
    assert DnsMap(v.dns) == e.dns;
  }

  /** The V2 mapping is a function of its input: ties leave no choice. */
  lemma MappingIsDetermined(e: EventV2, status: string, parse: Clock, r: Event, r': Event)
    requires MappedV2(e, status, parse, r) && MappedV2(e, status, parse, r')
    ensures r == r'
  {
    if e.serverCerts != [] {
      var j :| Primary(e.serverCerts, parse, j) && r.attestations.serverCert == e.serverCerts[j].fingerprint;
      var k :| Primary(e.serverCerts, parse, k) && r'.attestations.serverCert == e.serverCerts[k].fingerprint;
      PrimaryIsUnique(e.serverCerts, parse, j, k);
    }
    if e.identityCerts != [] {
      var j :| Primary(e.identityCerts, parse, j) && r.attestations.identityCert == e.identityCerts[j].fingerprint;
      var k :| Primary(e.identityCerts, parse, k) && r'.attestations.identityCert == e.identityCerts[k].fingerprint;
      PrimaryIsUnique(e.identityCerts, parse, j, k);
    }
  }
}
