/** An evaluation explained by its own breakdown: what each registered signal puts
    into it, and how score, vector and recommendation follow from it. */
module Breakdown {
  import opened Text
  import opened TimeText
  import opened Domain
  import opened Signals
  import opened Cascade
  import opened Scoring
  import opened ScoringLaws

  /** The entry the engine reports for a signal, given what it read for it. */
  function Reported(sig: Signal, agent: Agent, seen: Option<Observation>, profile: Profile): SignalScore {
    var weight := if sig.id in profile.signalWeights then profile.signalWeights[sig.id] else 0.0;
    var provenance := match seen { case Some(o) => o.provenance case None => None };
    match sig.evaluate(agent, seen)
    case Ok(res) =>
      var raw := if res.raw > 100 then 100 else if res.raw >= 0 then res.raw else 0;
      SignalScore(sig.id, sig.dimension, raw, weight, res.explanation, res.attestation, provenance)
    case Err(e) =>
      SignalScore(sig.id, sig.dimension, 0, weight, "signal evaluation failed: " + e, "unattested", provenance)
  }

  /** The codes that come with it. */
  function Raised(sig: Signal, agent: Agent, seen: Option<Observation>): seq<string> {
    match sig.evaluate(agent, seen)
    case Ok(res) => res.riskCodes
    case Err(_) => ["SIGNAL_EVALUATION_FAILED"]
  }

  /** The cap it puts on its dimension, on the published scale. */
  function Limit(sig: Signal, agent: Agent, seen: Option<Observation>): Option<int> {
    match sig.evaluate(agent, seen)
    case Ok(res) =>
      if res.cap.None? then None
      else Some(if res.cap.value > 100 then 100 else if res.cap.value >= 0 then res.cap.value else 0)
    case Err(_) => None
  }

  const DIMENSION_NAMES: seq<string> := ["integrity", "identity", "solvency", "behavior", "safety"]

  // ----- one signal

  lemma ContributionOf(sig: Signal, agent: Agent, seen: Option<Observation>, profile: Profile)
    ensures
      var c := Contribute(sig, agent, seen, profile);
      && c.score == Reported(sig, agent, seen, profile)
      && c.risks == Raised(sig, agent, seen) && c.cap == Limit(sig, agent, seen)
  {
  }

  lemma SoleContribution(sig: Signal, agent: Agent, read: Reader, profile: Profile)
    requires read(sig.id).Ok?
    ensures Contributions([sig], agent, read, profile) ==
      if read(sig.id).value.None? && !sig.absenceInformative then []
      else [Contribute(sig, agent, read(sig.id).value, profile)]
  {
    assert [sig][..0] == [];
    assert Contributions([], agent, read, profile) == [];
  }

  lemma ScoresOfSole(c: Contribution, dim: string)
    ensures SignalScores([c], dim) == if c.score.dimension == dim then [c.score] else []
    ensures Risks([c]) == if c.score.weight > 0.0 then c.risks else []
    ensures SignalScores([], dim) == [] && Risks([]) == []
  {
    assert [c][..0] == [];
  }

  lemma DedupeMembersOf(s: seq<string>)
    ensures forall code :: code in Dedupe(s) <==> code in s
  {
    DedupeMembers(s);
  }

  /** A registry of one readable signal: its entry is the whole breakdown and its
      codes are all the risk factors, unless it has no observation and says that
      this means nothing. */
  lemma SoleSignal(sig: Signal, agent: Agent, read: Reader, profile: Profile, t: Thresholds, now: Instant)
    requires read(sig.id).Ok?
    ensures
      var e := Evaluated([sig], read, agent, profile, t, now);
      var seen := read(sig.id).value;
      var silent := seen.None? && !sig.absenceInformative;
      && e.Some? && |e.value.dimensions| == |DIMENSION_NAMES|
      && (forall k :: 0 <= k < |DIMENSION_NAMES| ==>
            e.value.dimensions[k].signals ==
              if silent || sig.dimension != DIMENSION_NAMES[k] then [] else [Reported(sig, agent, seen, profile)])
      && (forall code :: code in e.value.riskFactors <==>
            !silent && sig.id in profile.signalWeights && profile.signalWeights[sig.id] > 0.0 && code in Raised(sig, agent, seen))
  {
    var seen := read(sig.id).value;
    var c := Contribute(sig, agent, seen, profile);
    SoleContribution(sig, agent, read, profile);
    ContributionOf(sig, agent, seen, profile);
    ScoresOfSole(c, "");
    DedupeMembersOf(Risks(Contributions([sig], agent, read, profile)));
    forall k | 0 <= k < |DIMENSION_NAMES|
      ensures ALL_DIMENSIONS[k] == DIMENSION_NAMES[k]
      ensures SignalScores([c], ALL_DIMENSIONS[k]) == if sig.dimension == DIMENSION_NAMES[k] then [c.score] else []
    {
      ScoresOfSole(c, ALL_DIMENSIONS[k]);
    }
  }

  // ----- two registries in a row

  lemma RisksConcatMembers(a: seq<Contribution>, b: seq<Contribution>, code: string)
    ensures code in Risks(a + b) <==> code in Risks(a) || code in Risks(b)
  {
    RiskMembers(a + b, code);
    RiskMembers(a, code);
    RiskMembers(b, code);
    assert forall c :: c in a + b <==> c in a || c in b;
  }

  lemma ReadableConcat(a: seq<Signal>, b: seq<Signal>, read: Reader)
    ensures Readable(a + b, read) <==> Readable(a, read) && Readable(b, read)
  {
    assert forall i :: 0 <= i < |a| ==> (a + b)[i] == a[i];
    assert forall i :: 0 <= i < |b| ==> (a + b)[|a| + i] == b[i];
  }

  /** Registering more signals behind others puts their entries behind the others'
      entries in every dimension, and their codes with the others' codes.  Together
      with the lemma above this determines every breakdown, in registry order. */
  lemma BreakdownConcat(a: seq<Signal>, b: seq<Signal>, agent: Agent, read: Reader, profile: Profile, t: Thresholds, now: Instant)
    ensures
      var e := Evaluated(a + b, read, agent, profile, t, now);
      var f := Evaluated(a, read, agent, profile, t, now);
      var g := Evaluated(b, read, agent, profile, t, now);
      && (e.Some? <==> f.Some? && g.Some?)
      && (e.Some? ==>
            && (forall k :: 0 <= k < |DIMENSION_NAMES| ==>
                  e.value.dimensions[k].signals == f.value.dimensions[k].signals + g.value.dimensions[k].signals)
            && (forall code :: code in e.value.riskFactors <==> code in f.value.riskFactors || code in g.value.riskFactors))
  {
    ReadableConcat(a, b, read);
    var cs, ds := Contributions(a, agent, read, profile), Contributions(b, agent, read, profile);
    ContributionsConcat(a, b, agent, read, profile);
    forall k | 0 <= k < |DIMENSION_NAMES|
      ensures SignalScores(cs + ds, ALL_DIMENSIONS[k]) == SignalScores(cs, ALL_DIMENSIONS[k]) + SignalScores(ds, ALL_DIMENSIONS[k])
    {
      SignalScoresConcat(cs, ds, ALL_DIMENSIONS[k]);
    }
    DedupeMembersOf(Risks(cs + ds));
    DedupeMembersOf(Risks(cs));
    DedupeMembersOf(Risks(ds));
    forall code
      ensures code in Risks(cs + ds) <==> code in Risks(cs) || code in Risks(ds)
    {
      RisksConcatMembers(cs, ds, code);
    }
  }

  // ----- every registered signal

  /** A signal that has nothing to say: no observation, and it declares that this
      means nothing. */
  predicate Silent(sig: Signal, read: Reader) {
    read(sig.id) == Ok(None) && !sig.absenceInformative
  }

  lemma ReadOfEach(signals: seq<Signal>, i: nat, agent: Agent, read: Reader, profile: Profile, t: Thresholds, now: Instant)
    requires i < |signals| && Evaluated(signals, read, agent, profile, t, now).Some?
    ensures read(signals[i].id).Ok?
  {
  }

  /** In every evaluation every registered signal is listed under its dimension,
      with all its codes reported when it carries weight, unless it is silent. */
  lemma EverySignalIsListed(signals: seq<Signal>, i: nat, k: nat, agent: Agent, read: Reader, profile: Profile,
                            t: Thresholds, now: Instant)
    requires i < |signals| && k < |DIMENSION_NAMES| && signals[i].dimension == DIMENSION_NAMES[k]
    requires Evaluated(signals, read, agent, profile, t, now).Some? && !Silent(signals[i], read)
    ensures
      var e, sig := Evaluated(signals, read, agent, profile, t, now).value, signals[i];
      && read(sig.id).Ok?
      && Reported(sig, agent, read(sig.id).value, profile) in e.dimensions[k].signals
      && (sig.id in profile.signalWeights && profile.signalWeights[sig.id] > 0.0 ==>
            forall code :: code in Raised(sig, agent, read(sig.id).value) ==> code in e.riskFactors)
  {
    var before, sig, after := signals[..i], signals[i], signals[i + 1..];
    assert signals == before + [sig] + after;
    ReadOfEach(signals, i, agent, read, profile, t, now);
    BreakdownConcat(before + [sig], after, agent, read, profile, t, now);
    BreakdownConcat(before, [sig], agent, read, profile, t, now);
    SoleSignal(sig, agent, read, profile, t, now);
  }

  lemma NothingRegistered(agent: Agent, read: Reader, profile: Profile, t: Thresholds, now: Instant)
    ensures
      var e := Evaluated([], read, agent, profile, t, now);
      && e.Some? && e.value.riskFactors == []
      && forall k :: 0 <= k < |DIMENSION_NAMES| ==> e.value.dimensions[k].signals == []
  {
    assert Contributions([], agent, read, profile) == [];
  }

  /** What is listed and reported is exactly what the registered signals that are
      not silent say. */
  lemma {:induction false} ListedExactly(signals: seq<Signal>, k: nat, agent: Agent, read: Reader, profile: Profile,
                                                t: Thresholds, now: Instant)
    requires k < |DIMENSION_NAMES| && Evaluated(signals, read, agent, profile, t, now).Some?
    ensures
      var e := Evaluated(signals, read, agent, profile, t, now).value;
      && (forall entry :: entry in e.dimensions[k].signals <==>
            SomeLists(signals, entry, k, agent, read, profile))
      && (forall code :: code in e.riskFactors <==> SomeReports(signals, code, agent, read, profile))
  {
    if signals == [] {
      NothingRegistered(agent, read, profile, t, now);
    } else {
      var front, sig := signals[..|signals| - 1], signals[|signals| - 1];
      assert signals == front + [sig];
      ReadOfEach(signals, |signals| - 1, agent, read, profile, t, now);
      ListedExactly(front, k, agent, read, profile, t, now);
      OneMoreSignal(front, sig, k, agent, read, profile, t, now);
      forall entry
        ensures SomeLists(signals, entry, k, agent, read, profile) <==>
          SomeLists(front, entry, k, agent, read, profile) || Lists(sig, entry, k, agent, read, profile)
      {
        SomeListsSnoc(front, sig, entry, k, agent, read, profile);
      }
      forall code
        ensures SomeReports(signals, code, agent, read, profile) <==>
          SomeReports(front, code, agent, read, profile) || Reports(sig, code, agent, read, profile)
      {
        SomeReportsSnoc(front, sig, code, agent, read, profile);
      }
    }
  }

  predicate Lists(sig: Signal, entry: SignalScore, k: nat, agent: Agent, read: Reader, profile: Profile)
    requires k < |DIMENSION_NAMES|
  {
    && !Silent(sig, read) && sig.dimension == DIMENSION_NAMES[k]
    && read(sig.id).Ok? && entry == Reported(sig, agent, read(sig.id).value, profile)
  }

  predicate Reports(sig: Signal, code: string, agent: Agent, read: Reader, profile: Profile) {
    && !Silent(sig, read) && sig.id in profile.signalWeights && profile.signalWeights[sig.id] > 0.0
    && read(sig.id).Ok? && code in Raised(sig, agent, read(sig.id).value)
  }

  /** What one more signal adds. */
  lemma OneMoreSignal(front: seq<Signal>, sig: Signal, k: nat, agent: Agent, read: Reader, profile: Profile,
                      t: Thresholds, now: Instant)
    requires k < |DIMENSION_NAMES| && Evaluated(front + [sig], read, agent, profile, t, now).Some?
    ensures
      var e, f := Evaluated(front + [sig], read, agent, profile, t, now).value, Evaluated(front, read, agent, profile, t, now);
      && f.Some?
      && (forall entry :: entry in e.dimensions[k].signals <==>
            entry in f.value.dimensions[k].signals || Lists(sig, entry, k, agent, read, profile))
      && (forall code :: code in e.riskFactors <==> code in f.value.riskFactors || Reports(sig, code, agent, read, profile))
  {
    ReadOfEach(front + [sig], |front|, agent, read, profile, t, now);
    BreakdownConcat(front, [sig], agent, read, profile, t, now);
    SoleSignal(sig, agent, read, profile, t, now);
  }

  predicate SomeLists(signals: seq<Signal>, entry: SignalScore, k: nat, agent: Agent, read: Reader, profile: Profile)
    requires k < |DIMENSION_NAMES|
  {
    exists i :: 0 <= i < |signals| && Lists(signals[i], entry, k, agent, read, profile)
  }

  predicate SomeReports(signals: seq<Signal>, code: string, agent: Agent, read: Reader, profile: Profile) {
    exists i :: 0 <= i < |signals| && Reports(signals[i], code, agent, read, profile)
  }

  lemma SomeListsSnoc(front: seq<Signal>, sig: Signal, entry: SignalScore, k: nat, agent: Agent, read: Reader, profile: Profile)
    requires k < |DIMENSION_NAMES|
    ensures SomeLists(front + [sig], entry, k, agent, read, profile) <==>
      SomeLists(front, entry, k, agent, read, profile) || Lists(sig, entry, k, agent, read, profile)
  {
    var all := front + [sig];
    assert all[|front|] == sig;
    assert forall i :: 0 <= i < |front| ==> all[i] == front[i];
  }

  lemma SomeReportsSnoc(front: seq<Signal>, sig: Signal, code: string, agent: Agent, read: Reader, profile: Profile)
    ensures SomeReports(front + [sig], code, agent, read, profile) <==>
      SomeReports(front, code, agent, read, profile) || Reports(sig, code, agent, read, profile)
  {
    var all := front + [sig];
    assert all[|front|] == sig;
    assert forall i :: 0 <= i < |front| ==> all[i] == front[i];
  }

  // ----- from the breakdown to the verdict

  /** Total weight, and total weighted score, of a list of entries. */
  function TotalWeight(entries: seq<SignalScore>): real {
    if entries == [] then 0.0
    else (if entries[0].weight > 0.0 then entries[0].weight else 0.0) + TotalWeight(entries[1..])
  }

  function TotalScore(entries: seq<SignalScore>): real {
    if entries == [] then 0.0
    else (if entries[0].weight > 0.0 then entries[0].raw as real * entries[0].weight else 0.0) + TotalScore(entries[1..])
  }

  lemma {:induction false} TotalsSnoc(entries: seq<SignalScore>, s: SignalScore)
    ensures TotalWeight(entries + [s]) == TotalWeight(entries) + if s.weight > 0.0 then s.weight else 0.0
    ensures TotalScore(entries + [s]) == TotalScore(entries) + if s.weight > 0.0 then s.raw as real * s.weight else 0.0
  {
    if entries == [] {
      assert [] + [s] == [s] && [s][1..] == [];
    } else {
      assert (entries + [s])[1..] == entries[1..] + [s];
      TotalsSnoc(entries[1..], s);
    }
  }

  /** The engine's sums from the front are the sums from the back. */
  lemma {:induction false} TotalsAreSums(entries: seq<SignalScore>)
    ensures TotalWeight(entries) == Mass(entries) && TotalScore(entries) == Moment(entries)
  {
    if entries != [] {
      var front, s := entries[..|entries| - 1], entries[|entries| - 1];
      assert entries == front + [s];
      TotalsAreSums(front);
      TotalsSnoc(front, s);
      MassSnoc(front, s);
    }
  }

  /** m is the rounded weighted mean of the entries, and 0 without weight. */
  predicate IsMean(m: int, entries: seq<SignalScore>) {
    if TotalWeight(entries) > 0.0 then
      var exact := TotalScore(entries) / TotalWeight(entries);
      exact - 0.5 < m as real <= exact + 0.5
    else m == 0
  }

  predicate Caps(sig: Signal, cap: int, k: nat, agent: Agent, read: Reader, profile: Profile)
    requires k < |DIMENSION_NAMES|
  {
    && !Silent(sig, read) && sig.dimension == DIMENSION_NAMES[k]
    && sig.id in profile.signalWeights && profile.signalWeights[sig.id] > 0.0
    && read(sig.id).Ok? && Limit(sig, agent, read(sig.id).value) == Some(cap)
  }

  /** Some registered signal caps the dimension at the given score. */
  predicate Capped(signals: seq<Signal>, cap: int, k: nat, agent: Agent, read: Reader, profile: Profile)
    requires k < |DIMENSION_NAMES|
  {
    exists i :: 0 <= i < |signals| && Caps(signals[i], cap, k, agent, read, profile)
  }

  predicate CapIn(cs: seq<Contribution>, dim: string, cap: int) {
    exists i :: 0 <= i < |cs| && Counts(cs[i], dim) && cs[i].cap == Some(cap)
  }

  lemma CapInSnoc(cs: seq<Contribution>, c: Contribution, dim: string, cap: int)
    ensures CapIn(cs + [c], dim, cap) <==> CapIn(cs, dim, cap) || (Counts(c, dim) && c.cap == Some(cap))
  {
    var all := cs + [c];
    assert all[|cs|] == c;
    assert forall i :: 0 <= i < |cs| ==> all[i] == cs[i];
  }

  lemma CappedSnoc(front: seq<Signal>, sig: Signal, cap: int, k: nat, agent: Agent, read: Reader, profile: Profile)
    requires k < |DIMENSION_NAMES|
    ensures Capped(front + [sig], cap, k, agent, read, profile) <==>
      Capped(front, cap, k, agent, read, profile) || Caps(sig, cap, k, agent, read, profile)
  {
    var all := front + [sig];
    assert all[|front|] == sig;
    assert forall i :: 0 <= i < |front| ==> all[i] == front[i];
  }

  lemma {:induction false} CapsOfRegistry(signals: seq<Signal>, k: nat, agent: Agent, read: Reader, profile: Profile, cap: int)
    requires k < |DIMENSION_NAMES| && Readable(signals, read)
    ensures Capped(signals, cap, k, agent, read, profile) <==>
      CapIn(Contributions(signals, agent, read, profile), DIMENSION_NAMES[k], cap)
  {
    if signals == [] {
      assert Contributions(signals, agent, read, profile) == [];
    } else {
      var front, sig := signals[..|signals| - 1], signals[|signals| - 1];
      assert signals == front + [sig];
      ReadableConcat(front, [sig], read);
      assert [sig][0] == sig;
      CapsOfRegistry(front, k, agent, read, profile, cap);
      ContributionsConcat(front, [sig], agent, read, profile);
      SoleContribution(sig, agent, read, profile);
      CappedSnoc(front, sig, cap, k, agent, read, profile);
      if !Silent(sig, read) {
        ContributionOf(sig, agent, read(sig.id).value, profile);
        CapInSnoc(Contributions(front, agent, read, profile), Contribute(sig, agent, read(sig.id).value, profile),
                  DIMENSION_NAMES[k], cap);
      } else {
        assert Contributions(front, agent, read, profile) + [] == Contributions(front, agent, read, profile);
      }
    }
  }

  /** Every dimension's score is the least of the rounded weighted mean of its own
      entries, 0 without weight, and the caps of its signals. */
  lemma ScoreFollowsFromBreakdown(signals: seq<Signal>, k: nat, agent: Agent, read: Reader, profile: Profile,
                                  t: Thresholds, now: Instant) returns (mean: int)
    requires k < |DIMENSION_NAMES| && Evaluated(signals, read, agent, profile, t, now).Some?
    ensures
      var d := Evaluated(signals, read, agent, profile, t, now).value.dimensions[k];
      && d.dimension == DIMENSION_NAMES[k] && 0 <= d.score <= 100
      && IsMean(mean, d.signals) && d.score <= mean
      && (forall cap :: Capped(signals, cap, k, agent, read, profile) ==> d.score <= cap)
      && (d.score == mean || Capped(signals, d.score, k, agent, read, profile))
  {
    var cs, dim := Contributions(signals, agent, read, profile), DIMENSION_NAMES[k];
    assert ALL_DIMENSIONS[k] == dim;
    mean := Mean(TallyOf(cs, dim));
    MeanOfEntries(cs, dim);
    ContributionsSane(signals, agent, read, profile);
    ScoreIsLowest(cs, dim);
    forall cap
      ensures Capped(signals, cap, k, agent, read, profile) <==> CapIn(cs, dim, cap)
    {
      CapsOfRegistry(signals, k, agent, read, profile, cap);
    }
  }

  lemma MeanOfEntries(cs: seq<Contribution>, dim: string)
    ensures IsMean(Mean(TallyOf(cs, dim)), SignalScores(cs, dim))
  {
    ListCarriesTally(cs, dim);
    TotalsAreSums(SignalScores(cs, dim));
  }

  /** A dimension counts for the recommendation when the profile switches it on and
      one of its entries carries weight. */
  predicate Counted(d: DimensionScore, profile: Profile) {
    && d.dimension in profile.dimensionWeights && profile.dimensionWeights[d.dimension] > 0.0
    && exists i :: 0 <= i < |d.signals| && d.signals[i].weight > 0.0
  }

  lemma CountedIsActive(cs: seq<Contribution>, profile: Profile, dim: string)
    ensures Counted(DimensionOf(cs, dim), profile) <==> Active(cs, profile, dim)
  {
    ListCarriesTally(cs, dim);
    MassIsWeight(SignalScores(cs, dim));
  }

  /** The header, and a vector whose components are the scores of the dimensions of
      their own names. */
  lemma VectorFollowsFromBreakdown(signals: seq<Signal>, agent: Agent, read: Reader, profile: Profile, t: Thresholds, now: Instant)
    requires Evaluated(signals, read, agent, profile, t, now).Some?
    ensures
      var e := Evaluated(signals, read, agent, profile, t, now).value;
      && e.agent == agent.id && e.time == now && e.profile == profile.name
      && |e.dimensions| == 5
      && e.dimensions[0].dimension == "integrity" && e.vector.integrity == e.dimensions[0].score
      && e.dimensions[1].dimension == "identity" && e.vector.identity == e.dimensions[1].score
      && e.dimensions[2].dimension == "solvency" && e.vector.solvency == e.dimensions[2].score
      && e.dimensions[3].dimension == "behavior" && e.vector.behavior == e.dimensions[3].score
      && e.dimensions[4].dimension == "safety" && e.vector.safety == e.dimensions[4].score
  {
  }

  /** The recommendation: each one has its bar over the counted dimensions, and
      without a counted dimension it is READ_ONLY. */
  lemma RecommendationFollowsFromBreakdown(signals: seq<Signal>, agent: Agent, read: Reader, profile: Profile,
                                           t: Thresholds, now: Instant)
    requires Ascending(t) && Evaluated(signals, read, agent, profile, t, now).Some?
    ensures
      var e := Evaluated(signals, read, agent, profile, t, now).value;
      var rank := Rank(e.recommended);
      && (rank >= 1 <==> AllReach(e.dimensions, profile, t.untrusted))
      && (rank >= 2 <==> AllReach(e.dimensions, profile, t.transactional) && AnyCounted(e.dimensions, profile))
      && (rank >= 3 <==> && AllReach(e.dimensions, profile, t.fiduciary)
                         && Counted(e.dimensions[1], profile) && e.dimensions[1].score >= t.identityFiduciary)
  {
    var cs := Contributions(signals, agent, read, profile);
    var scores, active := Scores(cs, ALL_DIMENSIONS), Actives(cs, profile, ALL_DIMENSIONS);
    BarsAreExact(t, scores, active);
    forall k | 0 <= k < |DIMENSION_NAMES|
      ensures Counted(DimensionOf(cs, ALL_DIMENSIONS[k]), profile) <==> active[ALL_DIMENSIONS[k]]
    {
      CountedIsActive(cs, profile, ALL_DIMENSIONS[k]);
    }
    ReachIsBar(cs, profile, t.untrusted);
    ReachIsBar(cs, profile, t.transactional);
    ReachIsBar(cs, profile, t.fiduciary);
  }

  predicate AllReach(dims: seq<DimensionScore>, profile: Profile, bar: int) {
    forall k :: 0 <= k < |dims| && Counted(dims[k], profile) ==> dims[k].score >= bar
  }

  predicate AnyCounted(dims: seq<DimensionScore>, profile: Profile) {
    exists k :: 0 <= k < |dims| && Counted(dims[k], profile)
  }

  lemma ReachIsBar(cs: seq<Contribution>, profile: Profile, bar: int)
    ensures AllReach(DimensionsOf(cs, ALL_DIMENSIONS), profile, bar) <==>
      !AnyBelow(Scores(cs, ALL_DIMENSIONS), Actives(cs, profile, ALL_DIMENSIONS), bar)
    ensures AnyCounted(DimensionsOf(cs, ALL_DIMENSIONS), profile) <==> AnyActive(Actives(cs, profile, ALL_DIMENSIONS))
  {
    var dims, active := DimensionsOf(cs, ALL_DIMENSIONS), Actives(cs, profile, ALL_DIMENSIONS);
    forall k | 0 <= k < |dims|
      ensures Counted(dims[k], profile) <==> active[ALL_DIMENSIONS[k]]
    {
      CountedIsActive(cs, profile, ALL_DIMENSIONS[k]);
    }
    assert forall d :: d in active ==> exists k :: 0 <= k < |dims| && ALL_DIMENSIONS[k] == d;
  }
}
