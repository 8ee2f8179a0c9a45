/** The import service in front of the store, and what it guarantees to the
    engine behind it. */
module Import {
  import opened Text
  import opened TimeText
  import opened Domain
  import opened Tables
  import opened History
  import opened Signals
  import opened Cascade
  import opened Scoring
  import opened Shipped
  import S = Store
  import R = Registry

  datatype Refusal =
    | AgentNotFound(agent: string)
    | UnknownSignal(signal: string)
    | DerivedSignal(signal: string)
    | InvalidValue(agent: string, signal: string)
    | LookupFailure(agent: string)
    | StorageFailure

  function Find(reg: seq<Signal>, id: string): (s: Option<Signal>)
    ensures s.Some? ==> s.value in reg && s.value.id == id
    ensures s.None? <==> forall i :: 0 <= i < |reg| ==> reg[i].id != id
  {
    if reg == [] then None
    else if reg[|reg| - 1].id == id then Some(reg[|reg| - 1])
    else
      assert forall i :: 0 <= i < |reg| - 1 ==> reg[i] == reg[..|reg| - 1][i];
      Find(reg[..|reg| - 1], id)
  }

  /** The checks in the order they are made.  The lookup fails when the database
      is down for it, or when the agent's row cannot be read. */
  function Refused(agents: seq<Agent>, reg: seq<Signal>, o: Observation, down: bool): Option<Refusal> {
    Judged(GetAgent(agents, o.agent), reg, o, down)
  }

  function Judged(lookup: Result<Option<Agent>>, reg: seq<Signal>, o: Observation, down: bool): Option<Refusal> {
    if down || lookup.Err? then Some(LookupFailure(o.agent))
    else if lookup.value.None? then Some(AgentNotFound(o.agent))
    else
      match Find(reg, o.signal)
      case None => Some(UnknownSignal(o.signal))
      case Some(sig) =>
        if sig.derived then Some(DerivedSignal(o.signal))
        else if !sig.validate(o.value) then Some(InvalidValue(o.agent, o.signal))
        else None
  }

  /** The verdict on each entry; `down` holds the entries whose lookup does not
      reach the database. */
  function Verdicts(agents: seq<Agent>, reg: seq<Signal>, batch: seq<Observation>, down: set<nat>): (r: seq<Option<Refusal>>)
    ensures |r| == |batch| && forall i :: 0 <= i < |batch| ==> r[i] == Refused(agents, reg, batch[i], i in down)
  {
    seq(|batch|, i requires 0 <= i < |batch| => Refused(agents, reg, batch[i], i in down))
  }

  function First(verdicts: seq<Option<Refusal>>): Option<Refusal> {
    if verdicts == [] then None
    else if verdicts[0].Some? then verdicts[0]
    else First(verdicts[1..])
  }

  /** The first refusal in a batch. */
  function FirstRefusal(agents: seq<Agent>, reg: seq<Signal>, batch: seq<Observation>, down: set<nat>): Option<Refusal> {
    First(Verdicts(agents, reg, batch, down))
  }

  /** One request to the service, or one retention pass. */
  datatype Request =
    | Agents(agents: seq<Agent>, works: bool)
    | Observations(batch: seq<Observation>, down: set<nat>, works: bool)
    | Retention(keep: int, works: bool)

  function StepFor(q: Request): Step {
    match q
    case Agents(agents, works) => Upsert(agents, works)
    case Observations(batch, _, works) => Append(batch, works)
    case Retention(keep, works) => Prune(keep, works)
  }

  predicate Admitted(db: Db, reg: seq<Signal>, q: Request) {
    q.Observations? ==> FirstRefusal(db.agents, reg, q.batch, q.down).None?
  }

  /** The store after a list of requests. */
  function Serve(reg: seq<Signal>, requests: seq<Request>): Db {
    if requests == [] then EMPTY
    else
      var db, q := Serve(reg, requests[..|requests| - 1]), requests[|requests| - 1];
      if Admitted(db, reg, q) then Apply(db, StepFor(q)) else db
  }

  /** A stored value has a known agent and a registered, non-derived signal that
      validates it. */
  predicate VettedRow(agents: seq<Agent>, reg: seq<Signal>, r: Row) {
    && Known(agents, r.agent)
    && Find(reg, r.signal).Some? && !Find(reg, r.signal).value.derived
    && Find(reg, r.signal).value.validate(r.value)
  }

  predicate Vetted(db: Db, reg: seq<Signal>) {
    forall i :: 0 <= i < |db.rows| ==> VettedRow(db.agents, reg, db.rows[i])
  }

  lemma {:induction false} NoRefusal(verdicts: seq<Option<Refusal>>)
    ensures First(verdicts).None? <==> forall i :: 0 <= i < |verdicts| ==> verdicts[i].None?
  {
    if verdicts != [] {
      NoRefusal(verdicts[1..]);
      assert verdicts == [verdicts[0]] + verdicts[1..];
    }
  }

  /** A batch without a refusal is vetted entry by entry. */
  lemma AdmittedRows(agents: seq<Agent>, reg: seq<Signal>, batch: seq<Observation>, down: set<nat>)
    requires FirstRefusal(agents, reg, batch, down).None?
    ensures forall i :: 0 <= i < |batch| ==> VettedEvidence(agents, reg, StampAll(batch)[i])
  {
    var verdicts := Verdicts(agents, reg, batch, down);
    NoRefusal(verdicts);
    forall i | 0 <= i < |batch|
      ensures VettedEvidence(agents, reg, StampAll(batch)[i])
    {
      assert verdicts[i].None?;
      AdmittedIsVetted(agents, reg, batch[i], i in down, StampAll(batch)[i]);
    }
  }

  lemma AdmittedIsVetted(agents: seq<Agent>, reg: seq<Signal>, o: Observation, down: bool, e: Evidence)
    requires Refused(agents, reg, o, down).None? && e == Stamp(o)
    ensures VettedEvidence(agents, reg, e)
  {
    LookupFinds(agents, o.agent);
  }

  predicate VettedEvidence(agents: seq<Agent>, reg: seq<Signal>, e: Evidence) {
    VettedRow(agents, reg, Row(0, e.agent, e.signal, e.observedAt, e.value, e.provenance))
  }

  lemma {:induction false} AppendKeepsVetted(db: Db, reg: seq<Signal>, batch: seq<Evidence>)
    requires Vetted(db, reg) && forall i :: 0 <= i < |batch| ==> VettedEvidence(db.agents, reg, batch[i])
    ensures AppendAll(db, batch).Some? ==> Vetted(AppendAll(db, batch).value, reg)
  {
    if batch != [] {
      var front := batch[..|batch| - 1];
      AppendKeepsVetted(db, reg, front);
      if AppendAll(db, front).Some? {
        AppendAllFrame(db, front);
      }
    }
  }

  lemma PruneKeepsVetted(db: Db, reg: seq<Signal>, keep: int)
    requires Vetted(db, reg)
    ensures Vetted(PruneObservations(db, keep), reg)
  {
    RetainedRows(db.rows, db.rows, keep);
    var next := PruneObservations(db, keep);
    forall i | 0 <= i < |next.rows|
      ensures VettedRow(next.agents, reg, next.rows[i])
    {
      assert next.rows[i] in db.rows;
    }
  }

  /** Every store that requests can produce holds only vetted observations, and a
      refused or failed request left it as it was. */
  lemma {:induction false} ReachableStoresAreVetted(reg: seq<Signal>, requests: seq<Request>)
    ensures Vetted(Serve(reg, requests), reg)
  {
    if requests != [] {
      var front, q := requests[..|requests| - 1], requests[|requests| - 1];
      var db := Serve(reg, front);
      ReachableStoresAreVetted(reg, front);
      if Admitted(db, reg, q) && Commits(db, StepFor(q)) {
        match q {
          case Agents(agents, _) =>
            UpsertAllKeeps(db, agents);
          case Observations(batch, down, _) =>
            AdmittedRows(db.agents, reg, batch, down);
            AppendKeepsVetted(db, reg, StampAll(batch));
          case Retention(keep, _) =>
            PruneKeepsVetted(db, reg, keep);
        }
      }
    }
  }

  /** The store calls that a list of requests amounts to. */
  function Calls(reg: seq<Signal>, requests: seq<Request>): seq<Step> {
    if requests == [] then []
    else
      var front, q := requests[..|requests| - 1], requests[|requests| - 1];
      Calls(reg, front) + if Admitted(Serve(reg, front), reg, q) then [StepFor(q)] else []
  }

  lemma {:induction false} ServeIsRun(reg: seq<Signal>, requests: seq<Request>)
    ensures Serve(reg, requests) == Run(EMPTY, Calls(reg, requests))
  {
    if requests != [] {
      var front, q := requests[..|requests| - 1], requests[|requests| - 1];
      ServeIsRun(reg, front);
      if Admitted(Serve(reg, front), reg, q) {
        RunSnoc(EMPTY, Calls(reg, front), StepFor(q));
      } else {
        assert Calls(reg, requests) == Calls(reg, front);
      }
    }
  }

  // ----- what is refused

  /** The fate of one observation, in terms of the imports so far.  The lookup fails
      when the database is down or a year of the agent's last import does not have
      four digits; then come an agent never imported, a signal not registered, a
      derived one, and a value that the signal does not take. */
  lemma RefusedExactly(reg: seq<Signal>, requests: seq<Request>, o: Observation, down: bool)
    ensures
      var r := Refused(Serve(reg, requests).agents, reg, o, down);
      var last := LastNamed(CommittedAgents(EMPTY, Calls(reg, requests)), o.agent);
      var unreadable := down || (last.Some? && !(FourDigitYear(last.value.firstSeen) && FourDigitYear(last.value.lastUpdated)));
      && (r == Some(LookupFailure(o.agent)) <==> unreadable)
      && (r == Some(AgentNotFound(o.agent)) <==> !unreadable && last == None)
      && (r == Some(UnknownSignal(o.signal)) <==> !unreadable && last != None && forall i :: 0 <= i < |reg| ==> reg[i].id != o.signal)
      && (r == None ==> exists i :: 0 <= i < |reg| && reg[i].id == o.signal && !reg[i].derived && reg[i].validate(o.value))
      && (R.DistinctIds(reg) && !unreadable && last != None ==>
            forall i :: 0 <= i < |reg| && reg[i].id == o.signal ==>
              r == if reg[i].derived then Some(DerivedSignal(o.signal))
                   else if !reg[i].validate(o.value) then Some(InvalidValue(o.agent, o.signal)) else None)
  {
    ServeIsRun(reg, requests);
    GetAgentReadsLastImport(Calls(reg, requests), o.agent);
    JudgedExactly(GetAgent(Serve(reg, requests).agents, o.agent), reg, o, down);
  }

  lemma JudgedExactly(lookup: Result<Option<Agent>>, reg: seq<Signal>, o: Observation, down: bool)
    ensures
      var r := Judged(lookup, reg, o, down);
      && (r == Some(LookupFailure(o.agent)) <==> down || lookup.Err?)
      && (r == Some(AgentNotFound(o.agent)) <==> !down && lookup == Ok(None))
      && (r == Some(UnknownSignal(o.signal)) <==>
            !down && lookup.Ok? && lookup != Ok(None) && forall i :: 0 <= i < |reg| ==> reg[i].id != o.signal)
      && (r == None ==> exists i :: 0 <= i < |reg| && reg[i].id == o.signal && !reg[i].derived && reg[i].validate(o.value))
      && (R.DistinctIds(reg) && !down && lookup.Ok? && lookup != Ok(None) ==>
            forall i :: 0 <= i < |reg| && reg[i].id == o.signal ==>
              r == if reg[i].derived then Some(DerivedSignal(o.signal))
                   else if !reg[i].validate(o.value) then Some(InvalidValue(o.agent, o.signal)) else None)
  {
    forall i | 0 <= i < |reg| && reg[i].id == o.signal && R.DistinctIds(reg)
      ensures Find(reg, o.signal) == Some(reg[i])
    {
      FindsItself(reg, i);
    }
  }

  lemma LookupFinds(agents: seq<Agent>, id: string)
    ensures GetAgent(agents, id) == Ok(None) <==> !Known(agents, id)
  {
  }

  /** Every request reaches the store as it is, except an import with a refusal, which
      does not reach it at all. */
  lemma RequestsReachTheStore(reg: seq<Signal>, requests: seq<Request>, agents: seq<Agent>, keep: int,
                              batch: seq<Observation>, down: set<nat>, works: bool)
    ensures Serve(reg, requests + [Observations(batch, down, works)]) ==
      if FirstRefusal(Serve(reg, requests).agents, reg, batch, down).None? then Apply(Serve(reg, requests), Append(batch, works))
      else Serve(reg, requests)
    ensures Serve(reg, requests + [Agents(agents, works)]) == Apply(Serve(reg, requests), Upsert(agents, works))
    ensures Serve(reg, requests + [Retention(keep, works)]) == Apply(Serve(reg, requests), Prune(keep, works))
  {
    assert (requests + [Agents(agents, works)])[..|requests|] == requests;
    assert (requests + [Retention(keep, works)])[..|requests|] == requests;
    assert (requests + [Observations(batch, down, works)])[..|requests|] == requests;
  }

  // ----- from a reachable store to an evaluation

  function Plugins(shipped: seq<Shipped>): (reg: seq<Signal>)
    ensures |reg| == |shipped| && forall i :: 0 <= i < |shipped| ==> reg[i] == AsSignal(shipped[i])
  {
    seq(|shipped|, i requires 0 <= i < |shipped| => AsSignal(shipped[i]))
  }

  /** The store as the engine's reader; reads can fail. */
  function ReaderOf(db: Db, agent: string): Reader {
    id => LatestObservation(db, agent, id)
  }

  lemma {:induction false} LatestMember(rows: seq<Row>, agent: string, signal: string)
    ensures Latest(rows, agent, signal).Some? ==>
      Latest(rows, agent, signal).value in rows && OfPair(Latest(rows, agent, signal).value, agent, signal)
  {
    if rows != [] {
      LatestMember(rows[..|rows| - 1], agent, signal);
    }
  }

  /** A boot configuration: shipped signals with distinct ids. */
  ghost predicate Deployed(shipped: seq<Shipped>) {
    && (forall i :: 0 <= i < |shipped| ==> Configured(shipped[i]))
    && (forall i, j :: 0 <= i < j < |shipped| ==> Id(shipped[i]) != Id(shipped[j]))
  }

  lemma {:induction false} FindsItself(reg: seq<Signal>, i: nat)
    requires i < |reg| && R.DistinctIds(reg)
    ensures Find(reg, reg[i].id) == Some(reg[i])
  {
    if i < |reg| - 1 {
      assert reg[i].id != reg[|reg| - 1].id;
      FindsItself(reg[..|reg| - 1], i);
    }
  }

  /** What the engine reads for a deployed signal has passed that signal's own
      validation. */
  lemma ReadValuesAreValid(shipped: seq<Shipped>, requests: seq<Request>, agent: string, i: nat)
    requires Deployed(shipped) && i < |shipped|
    ensures
      var seen := Seen(ReaderOf(Serve(Plugins(shipped), requests), agent), Id(shipped[i]));
      seen.Some? ==> !shipped[i].AgentAge? && Validates(shipped[i], seen.value.value)
  {
    var reg := Plugins(shipped);
    var db := Serve(reg, requests);
    ReachableStoresAreVetted(reg, requests);
    LatestMember(db.rows, agent, Id(shipped[i]));
    assert reg[i].id == Id(shipped[i]);
    FindsItself(reg, i);
  }

  /** In every store reachable through imports, each deployed signal that takes
      part evaluates without error, within the scale and uncapped, so that neither
      the degrade branch nor the clamp ever fires, and raises only well-formed
      codes of its own dimension. */
  lemma ImportedEvidenceNeverDegrades(shipped: seq<Shipped>, requests: seq<Request>, agent: Agent, profile: Profile, i: nat)
    requires Deployed(shipped) && i < |shipped|
    ensures
      var sig := Plugins(shipped)[i];
      var seen := Seen(ReaderOf(Serve(Plugins(shipped), requests), agent.id), sig.id);
      !Skipped(sig, seen) ==>
        && Clean(sig.evaluate(agent, seen), sig.dimension)
        && Contribute(sig, agent, seen, profile).score.raw == sig.evaluate(agent, seen).value.raw
        && Contribute(sig, agent, seen, profile).risks == sig.evaluate(agent, seen).value.riskCodes
  {
    var sig := Plugins(shipped)[i];
    var seen := Seen(ReaderOf(Serve(Plugins(shipped), requests), agent.id), sig.id);
    ReadValuesAreValid(shipped, requests, agent.id, i);
    if !Skipped(sig, seen) {
      AcceptedValuesScore(shipped[i], agent, seen);
    }
  }

  lemma MarkerHasNoDimension(dimension: string)
    requires dimension in ALL_DIMENSIONS
    ensures !OwnCode(EVALUATION_FAILED, dimension)
  {
    var p := Prefix(dimension);
    assert |dimension| >= 2 && p[0] == UpperChar(dimension[0]) && p[1] == UpperChar(dimension[1]);
    assert EVALUATION_FAILED[0] == 'S' && EVALUATION_FAILED[1] == 'I';
  }

  ghost predicate OwnCodes(codes: seq<string>) {
    forall code :: code in codes ==> exists dim :: dim in ALL_DIMENSIONS && OwnCode(code, dim)
  }

  lemma CleanCodes(r: Result<SignalResult>, dimension: string, before: seq<string>)
    requires Clean(r, dimension) && dimension in ALL_DIMENSIONS && OwnCodes(before)
    ensures OwnCodes(before + r.value.riskCodes)
  {
    forall code | code in r.value.riskCodes
      ensures OwnCode(code, dimension)
    {
      var i :| 0 <= i < |r.value.riskCodes| && r.value.riskCodes[i] == code;
    }
  }

  lemma RisksSnoc(cs: seq<Contribution>, c: Contribution)
    ensures Risks(cs + [c]) == Risks(cs) + if c.score.weight > 0.0 then c.risks else []
  {
    assert (cs + [c])[..|cs|] == cs;
  }

  lemma {:induction false} RisksAreOwnCodes(shipped: seq<Shipped>, requests: seq<Request>, agent: Agent, profile: Profile, n: nat)
    requires Deployed(shipped) && n <= |shipped|
    ensures
      var reg := Plugins(shipped);
      OwnCodes(Risks(Contributions(reg[..n], agent, ReaderOf(Serve(reg, requests), agent.id), profile)))
  {
    var reg := Plugins(shipped);
    var read := ReaderOf(Serve(reg, requests), agent.id);
    if n > 0 {
      RisksAreOwnCodes(shipped, requests, agent, profile, n - 1);
      assert reg[..n][..n - 1] == reg[..n - 1];
      var sig := reg[n - 1];
      var before := Contributions(reg[..n - 1], agent, read, profile);
      if !Skipped(sig, Seen(read, sig.id)) {
        ImportedEvidenceNeverDegrades(shipped, requests, agent, profile, n - 1);
        var c := Contribute(sig, agent, Seen(read, sig.id), profile);
        assert Contributions(reg[..n], agent, read, profile) == before + [c];
        RisksSnoc(before, c);
        DeployedDimension(shipped[n - 1]);
        CleanCodes(sig.evaluate(agent, Seen(read, sig.id)), sig.dimension, Risks(before));
      } else {
        assert Contributions(reg[..n], agent, read, profile) == before;
      }
    }
  }

  lemma DeployedDimension(s: Shipped)
    requires Configured(s)
    ensures DimensionOfShipped(s) in ALL_DIMENSIONS
  {
    assert ALL_DIMENSIONS[0] == INTEGRITY && ALL_DIMENSIONS[1] == IDENTITY;
  }

  /** No evaluation of a reachable store reports a failed signal, and every risk
      factor names one of the five dimensions in the code alphabet. */
  lemma RiskFactorsAreWellFormed(shipped: seq<Shipped>, requests: seq<Request>, agent: Agent, profile: Profile,
                                 t: Thresholds, now: Instant)
    requires Deployed(shipped)
    ensures
      var reg := Plugins(shipped);
      var e := Evaluated(reg, ReaderOf(Serve(reg, requests), agent.id), agent, profile, t, now);
      e.Some? ==> OwnCodes(e.value.riskFactors) && EVALUATION_FAILED !in e.value.riskFactors
  {
    var reg := Plugins(shipped);
    var codes := Risks(Contributions(reg, agent, ReaderOf(Serve(reg, requests), agent.id), profile));
    RisksAreOwnCodes(shipped, requests, agent, profile, |shipped|);
    assert reg[..|shipped|] == reg;
    DedupeMembers(codes);
    forall dim | dim in ALL_DIMENSIONS
      ensures !OwnCode(EVALUATION_FAILED, dim)
    {
      MarkerHasNoDimension(dim);
    }
  }

  // ----- the service

  class Service {
    const store: S.DB
    const registry: R.Registry

    constructor (store: S.DB, registry: R.Registry)
      ensures this.store == store && this.registry == registry
    {
      this.store, this.registry := store, registry;
    }

    method ValidateObservation(o: Observation, down: bool) returns (r: Option<Refusal>)
      requires store.Valid() && registry.Valid()
      ensures r == Refused(store.agents, registry.All(), o, down)
    {
      if down {
        return Some(LookupFailure(o.agent));
      }
      var found := store.GetAgent(o.agent);
      if found.Err? {
        return Some(LookupFailure(o.agent));
      }
      if found.value.None? {
        return Some(AgentNotFound(o.agent));
      }
      var sig := registry.Get(o.signal);
      ghost var reg := registry.All();
      if Find(reg, o.signal).Some? {
        var i :| 0 <= i < |reg| && reg[i] == Find(reg, o.signal).value;
        assert registry.Get(o.signal) == Some(reg[i]);
      }
      if sig.None? {
        return Some(UnknownSignal(o.signal));
      }
      if sig.value.derived {
        return Some(DerivedSignal(o.signal));
      }
      if !sig.value.validate(o.value) {
        return Some(InvalidValue(o.agent, o.signal));
      }
      return None;
    }

    /** Answers with the first refusal of the batch, or with the store's own
        failure; in both cases nothing was written. */
    method ImportObservations(batch: seq<Observation>, down: set<nat>, works: bool) returns (r: Option<Refusal>)
      requires store.Valid() && registry.Valid()
      modifies store
      ensures store.Valid() && registry.Valid()
      ensures old(FirstRefusal(store.agents, registry.All(), batch, down)).Some? ==>
        r == old(FirstRefusal(store.agents, registry.All(), batch, down))
      ensures old(FirstRefusal(store.agents, registry.All(), batch, down)).None? ==>
        r == if batch == [] || works then None else Some(StorageFailure)
      ensures r.Some? ==> store.Content() == old(store.Content())
      ensures r.None? ==> store.Content() == Apply(old(store.Content()), Append(batch, works))
    {
      ghost var agents, reg := store.agents, registry.All();
      ghost var verdicts := Verdicts(agents, reg, batch, down);
      for i := 0 to |batch|
        invariant store.Valid() && registry.Valid() && store.Content() == old(store.Content())
        invariant First(verdicts) == First(verdicts[i..])
      {
        r := ValidateObservation(batch[i], i in down);
        assert verdicts[i..][0] == r && verdicts[i..][1..] == verdicts[i + 1..];
        if r.Some? {
          return;
        }
      }
      AdmittedRows(agents, reg, batch, down);
      RunConsistent(store.calls);
      AppendNeedsOnlyAgents(store.Content(), StampAll(batch));
      var ok := store.AppendObservations(batch, works);
      r := if ok then None else Some(StorageFailure);
    }
  }
}
