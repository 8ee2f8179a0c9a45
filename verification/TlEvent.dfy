/** The fixture event shared by the feed producer, the hydrator and the prober. */
module TlEvent {
  import opened Domain

  datatype Endpoint = Endpoint(protocol: string, transport: string, url: string)

  datatype AgentBlock = AgentBlock(
    host: string, version: string, name: string, description: string,
    protocols: seq<string>, transports: seq<string>, endpoints: seq<Endpoint>)

  /** The sealed baselines. */
  datatype Attestations = Attestations(
    serverCert: string, identityCert: string, ans: string, ansBadge: string, dnssecStatus: string)

  const UNSEALED := Attestations("", "", "", "", "")

  datatype Event = Event(
    ansId: string, status: string, providerId: string, firstSeen: string, lastUpdated: string,
    agent: AgentBlock, attestations: Attestations)

  /** The shape checks a fixture must pass; rfc3339 says which texts time.Parse
      accepts. */
  predicate WellFormed(e: Event, rfc3339: string -> bool) {
    && e.ansId != "" && e.agent.host != "" && e.agent.version != "" && e.agent.name != ""
    && ValidStatus(e.status)
    && e.firstSeen != "" && rfc3339(e.firstSeen)
    && e.lastUpdated != "" && rfc3339(e.lastUpdated)
  }
}
