/** The detail page: look an agent up, then evaluate it under a profile. */
module Detail {
  import opened Text
  import opened TimeText
  import opened Domain
  import opened Tables
  import opened History
  import opened Signals
  import opened Cascade
  import opened Scoring
  import opened Breakdown
  import opened Shipped
  import opened Scales
  import opened Import

  const DEFAULT_PROFILE := "default"

  datatype Answer =
    | Page(agent: Agent, evaluation: TrustEvaluation)
    | UnknownProfile(name: string)
    | AgentNotFound(id: string)
    | Failure

  function Effective(name: string): string {
    if name == "" then DEFAULT_PROFILE else name
  }

  /** The checks in the order they are made. */
  function Detail(db: Db, reg: seq<Signal>, profiles: map<string, Profile>, id: string, name: string,
                  t: Thresholds, now: Instant): Answer {
    if Effective(name) !in profiles then UnknownProfile(Effective(name))
    else
      match GetAgent(db.agents, id)
      case Err(_) => Failure
      case Ok(None) => Answer.AgentNotFound(id)
      case Ok(Some(agent)) =>
        match Evaluated(reg, ReaderOf(db, agent.id), agent, profiles[Effective(name)], t, now)
        case None => Failure
        case Some(e) => Page(agent, e)
  }

  /** No read of the pair fails, given what was committed for it. */
  predicate ReadSucceeds(log: seq<Observation>, agent: string, signal: string) {
    Sound(log, agent, signal) || Has(log, agent, signal, From1001)
  }

  /** On every reachable store the engine can read all it needs for an agent exactly
      when the committed times of each registered signal's pair allow it. */
  lemma ReadableExactly(reg: seq<Signal>, requests: seq<Request>, agent: string)
    requires ReachableTimes(Committed(EMPTY, Calls(reg, requests)))
    ensures Readable(reg, ReaderOf(Serve(reg, requests), agent)) <==>
      forall i :: 0 <= i < |reg| ==> ReadSucceeds(Committed(EMPTY, Calls(reg, requests)), agent, reg[i].id)
  {
    ServeIsRun(reg, requests);
    var read := ReaderOf(Serve(reg, requests), agent);
    forall i | 0 <= i < |reg|
      ensures read(reg[i].id).Ok? <==> ReadSucceeds(Committed(EMPTY, Calls(reg, requests)), agent, reg[i].id)
    {
      LatestIsRightExactly(Calls(reg, requests), agent, reg[i].id);
    }
  }

  /** For every list of requests: the page is served exactly when the profile
      exists, the agent was imported, both times of its last import have four-digit
      years, and every registered signal's latest row can be read.  It then shows
      that last import and the evaluation of the vetted evidence. */
  lemma DetailIsServedExactly(reg: seq<Signal>, requests: seq<Request>, profiles: map<string, Profile>,
                              id: string, name: string, t: Thresholds, now: Instant)
    requires ReachableTimes(Committed(EMPTY, Calls(reg, requests)))
    ensures
      var calls := Calls(reg, requests);
      var last := LastNamed(CommittedAgents(EMPTY, calls), id);
      var answer := Detail(Serve(reg, requests), reg, profiles, id, name, t, now);
      && (answer.Page? <==>
            && Effective(name) in profiles && last.Some? && Datable(last.value)
            && forall i :: 0 <= i < |reg| ==> ReadSucceeds(Committed(EMPTY, calls), id, reg[i].id))
      && (answer.AgentNotFound? <==> Effective(name) in profiles && last.None?)
      && (answer.UnknownProfile? <==> Effective(name) !in profiles)
      && (answer.Page? ==> IsRecordOf(answer.agent, last.value) && answer.agent.id == id)
  {
    ServeIsRun(reg, requests);
    GetAgentReadsLastImport(Calls(reg, requests), id);
    LastNamedId(CommittedAgents(EMPTY, Calls(reg, requests)), id);
    ReadableExactly(reg, requests, id);
  }

  /** A page shows the evaluation of the agent it shows, under the profile that was
      named, or under "default" when none was. */
  lemma PageIsEvaluation(db: Db, reg: seq<Signal>, profiles: map<string, Profile>, id: string, name: string,
                         t: Thresholds, now: Instant)
    ensures
      var answer, asked := Detail(db, reg, profiles, id, name, t, now), if name == "" then "default" else name;
      && (answer.UnknownProfile? <==> asked !in profiles)
      && (answer.Page? ==>
            && GetAgent(db.agents, id) == Ok(Some(answer.agent))
            && Some(answer.evaluation) == Evaluated(reg, ReaderOf(db, answer.agent.id), answer.agent, profiles[asked], t, now)
            && answer.evaluation.profile == profiles[asked].name && answer.evaluation.agent == answer.agent.id)
  {
  }

  // ----- signals without an observation

  /** An agent that a weighted certificate-type signal never saw reports the missing
      certificate, is listed at 0, and so keeps the identity dimension counted. */
  lemma MissingCertIsReported(shipped: seq<Shipped>, requests: seq<Request>, i: nat, agent: Agent, profile: Profile,
                              t: Thresholds, now: Instant)
    requires Deployed(shipped) && i < |shipped| && shipped[i] == CertType
    requires "certtype" in profile.signalWeights && profile.signalWeights["certtype"] > 0.0
    requires LatestObservation(Serve(Plugins(shipped), requests), agent.id, "certtype") == Ok(None)
    requires Evaluated(Plugins(shipped), ReaderOf(Serve(Plugins(shipped), requests), agent.id), agent, profile, t, now).Some?
    ensures
      var e := Evaluated(Plugins(shipped), ReaderOf(Serve(Plugins(shipped), requests), agent.id), agent, profile, t, now).value;
      && "IDENTITY_" + "CERT_MISSING" in e.riskFactors
      && (exists k :: 0 <= k < |e.dimensions[1].signals| && e.dimensions[1].signals[k].signal == "certtype"
                   && e.dimensions[1].signals[k].raw == 0 && e.dimensions[1].signals[k].weight > 0.0)
      && ("identity" in profile.dimensionWeights && profile.dimensionWeights["identity"] > 0.0 ==> Counted(e.dimensions[1], profile))
  {
    var reg := Plugins(shipped);
    var read := ReaderOf(Serve(reg, requests), agent.id);
    Traits(CertType);
    Identities(now);
    assert reg[i].id == "certtype" && reg[i].dimension == DIMENSION_NAMES[1];
    EverySignalIsListed(reg, i, 1, agent, read, profile, t, now);
    MissingCertScale(agent);
    var entry := Reported(reg[i], agent, None, profile);
    var e := Evaluated(reg, read, agent, profile, t, now).value;
    assert "IDENTITY_" + "CERT_MISSING" in Raised(reg[i], agent, None);
    VectorFollowsFromBreakdown(reg, agent, read, profile, t, now);
    assert entry in e.dimensions[1].signals;
  }

  /** The age of an agent is always listed: no observation of it is ever stored. */
  lemma AgeIsAlwaysListed(shipped: seq<Shipped>, requests: seq<Request>, i: nat, agent: Agent, profile: Profile,
                          t: Thresholds, now: Instant)
    requires Deployed(shipped) && i < |shipped| && shipped[i].AgentAge?
    requires Evaluated(Plugins(shipped), ReaderOf(Serve(Plugins(shipped), requests), agent.id), agent, profile, t, now).Some?
    ensures
      var reg := Plugins(shipped);
      var e := Evaluated(reg, ReaderOf(Serve(reg, requests), agent.id), agent, profile, t, now).value;
      && Reported(reg[i], agent, None, profile) in e.dimensions[0].signals && reg[i].id == "agentage"
      && Reported(reg[i], agent, None, profile).raw == AgeScore(AgeDays(shipped[i].now, agent.firstSeen))
  {
    var reg := Plugins(shipped);
    var read := ReaderOf(Serve(reg, requests), agent.id);
    Traits(shipped[i]);
    Identities(shipped[i].now);
    assert reg[i].id == "agentage" && reg[i].dimension == DIMENSION_NAMES[0];
    ReadValuesAreValid(shipped, requests, agent.id, i);
    EverySignalIsListed(reg, i, 0, agent, read, profile, t, now);
    AgeScoreInRange(AgeDays(shipped[i].now, agent.firstSeen));
  }

  lemma {:induction false} LastNamedId(log: seq<Agent>, id: string)
    ensures LastNamed(log, id).Some? ==> LastNamed(log, id).value.id == id
    ensures LastNamed(log, id).None? <==> forall i :: 0 <= i < |log| ==> log[i].id != id
  {
    if log != [] {
      var front := log[..|log| - 1];
      LastNamedId(front, id);
      assert forall i :: 0 <= i < |front| ==> front[i] == log[i];
    }
  }

  predicate DatableAll(log: seq<Agent>) {
    forall i :: 0 <= i < |log| ==> Datable(log[i])
  }

  /** When all committed times have four-digit years, nothing an import did can
      make a page fail: every agent ever imported has one, evaluated on the first
      write of the newest second of each pair, with well-formed codes. */
  lemma FourDigitYearsAlwaysServe(shipped: seq<Shipped>, requests: seq<Request>, profiles: map<string, Profile>,
                                  id: string, name: string, t: Thresholds, now: Instant, i: nat)
    requires Deployed(shipped) && Effective(name) in profiles
    requires
      var calls := Calls(Plugins(shipped), requests);
      && FourDigitYears(Committed(EMPTY, calls)) && DatableAll(CommittedAgents(EMPTY, calls))
      && i < |CommittedAgents(EMPTY, calls)| && CommittedAgents(EMPTY, calls)[i].id == id
    ensures
      var reg := Plugins(shipped);
      var answer := Detail(Serve(reg, requests), reg, profiles, id, name, t, now);
      && answer.Page? && answer.agent.id == id
      && OwnCodes(answer.evaluation.riskFactors) && EVALUATION_FAILED !in answer.evaluation.riskFactors
      && forall signal :: ReadsNewestSecond(ReaderOf(Serve(reg, requests), id)(signal),
                                            Committed(EMPTY, Calls(reg, requests)), id, signal)
  {
    var reg := Plugins(shipped);
    var calls := Calls(reg, requests);
    var log := CommittedAgents(EMPTY, calls);
    LastNamedId(log, id);
    LastNamedMember(log, id);
    DetailIsServedExactly(reg, requests, profiles, id, name, t, now);
    FourDigitYearsRead(reg, requests, id);
    PageCodes(shipped, requests, profiles, id, name, t, now);
  }

  lemma PageCodes(shipped: seq<Shipped>, requests: seq<Request>, profiles: map<string, Profile>,
                  id: string, name: string, t: Thresholds, now: Instant)
    requires Deployed(shipped) && Detail(Serve(Plugins(shipped), requests), Plugins(shipped), profiles, id, name, t, now).Page?
    ensures
      var codes := Detail(Serve(Plugins(shipped), requests), Plugins(shipped), profiles, id, name, t, now).evaluation.riskFactors;
      OwnCodes(codes) && EVALUATION_FAILED !in codes
  {
    var answer := Detail(Serve(Plugins(shipped), requests), Plugins(shipped), profiles, id, name, t, now);
    RiskFactorsAreWellFormed(shipped, requests, answer.agent, profiles[Effective(name)], t, now);
  }

  lemma FourDigitYearsRead(reg: seq<Signal>, requests: seq<Request>, id: string)
    requires FourDigitYears(Committed(EMPTY, Calls(reg, requests)))
    ensures forall signal ::
      && ReadSucceeds(Committed(EMPTY, Calls(reg, requests)), id, signal)
      && ReadsNewestSecond(ReaderOf(Serve(reg, requests), id)(signal), Committed(EMPTY, Calls(reg, requests)), id, signal)
  {
    ServeIsRun(reg, requests);
    forall signal
      ensures ReadSucceeds(Committed(EMPTY, Calls(reg, requests)), id, signal)
      ensures ReadsNewestSecond(ReaderOf(Serve(reg, requests), id)(signal), Committed(EMPTY, Calls(reg, requests)), id, signal)
    {
      LatestIsRightExactly(Calls(reg, requests), id, signal);
    }
  }

  lemma {:induction false} LastNamedMember(log: seq<Agent>, id: string)
    ensures LastNamed(log, id).Some? ==> exists i :: 0 <= i < |log| && log[i] == LastNamed(log, id).value
  {
    if log != [] && log[|log| - 1].id != id {
      var front := log[..|log| - 1];
      LastNamedMember(front, id);
      assert forall i :: 0 <= i < |front| ==> front[i] == log[i];
    }
  }
}
