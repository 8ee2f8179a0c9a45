/** The scoring engine: one pass over the registry fills per-dimension lists,
    which roll up to a trust vector and a recommended profile. */
module Scoring {
  import opened Text
  import opened TimeText
  import opened Domain
  import opened Signals
  import opened Cascade

  const EVALUATION_FAILED := "SIGNAL_EVALUATION_FAILED"

  datatype SignalScore = SignalScore(
    signal: string, dimension: string, raw: int, weight: real,
    explanation: string, attestation: string, provenance: Option<Provenance>)

  datatype Profile = Profile(name: string, dimensionWeights: map<string, real>, signalWeights: map<string, real>)

  datatype DimensionScore = DimensionScore(dimension: string, score: int, signals: seq<SignalScore>)

  datatype TrustVector = TrustVector(integrity: int, identity: int, solvency: int, behavior: int, safety: int)

  datatype TrustEvaluation = TrustEvaluation(
    agent: string, time: Instant, vector: TrustVector, recommended: Recommendation,
    riskFactors: seq<string>, dimensions: seq<DimensionScore>, profile: string)

  function WeightIn(weights: map<string, real>, key: string): real {
    if key in weights then weights[key] else 0.0
  }

  function ClampRaw(raw: int): int {
    if raw < 0 then 0 else if raw > 100 then 100 else raw
  }

  /** math.Round on the non-negative numbers that reach it. */
  function Round(x: real): int {
    (x + 0.5).Floor
  }

  // ----- what one signal contributes

  datatype Contribution = Contribution(score: SignalScore, risks: seq<string>, cap: Option<int>)

  predicate Skipped(sig: Signal, seen: Option<Observation>) {
    seen.None? && !sig.absenceInformative
  }

  /** A failing signal degrades to raw 0 and a marker. */
  function Outcome(sig: Signal, agent: Agent, seen: Option<Observation>): SignalResult {
    match sig.evaluate(agent, seen)
    case Ok(res) => res
    case Err(e) => SignalResult(0, "signal evaluation failed: " + e, UNATTESTED, [EVALUATION_FAILED], None)
  }

  function Contribute(sig: Signal, agent: Agent, seen: Option<Observation>, profile: Profile): Contribution {
    var res := Outcome(sig, agent, seen);
    var provenance := if seen.Some? then seen.value.provenance else None;
    Contribution(
      SignalScore(sig.id, sig.dimension, ClampRaw(res.raw), WeightIn(profile.signalWeights, sig.id),
                  res.explanation, res.attestation, provenance),
      res.riskCodes,
      if res.cap.Some? then Some(ClampRaw(res.cap.value)) else None)
  }

  /** The store as the engine sees it for one agent: a signal id to its latest
      observation, or a storage error. */
  type Reader = string -> Result<Option<Observation>>

  function Seen(read: Reader, id: string): Option<Observation> {
    match read(id)
    case Ok(seen) => seen
    case Err(_) => None
  }

  /** The contributions of the signals that take part, in registry order. */
  function Contributions(signals: seq<Signal>, agent: Agent, read: Reader, profile: Profile): seq<Contribution> {
    if signals == [] then []
    else
      var front, sig := signals[..|signals| - 1], signals[|signals| - 1];
      Contributions(front, agent, read, profile) +
      if Skipped(sig, Seen(read, sig.id)) then []
      else [Contribute(sig, agent, Seen(read, sig.id), profile)]
  }

  // ----- the specification: a tally per dimension

  predicate Counts(c: Contribution, dim: string) {
    c.score.dimension == dim && c.score.weight > 0.0
  }

  /** Total weight, total weighted score and lowest cap of a dimension. */
  datatype Tally = Tally(moment: real, mass: real, cap: Option<int>)

  function Lower(cap: Option<int>, c: int): int {
    if cap.Some? && cap.value < c then cap.value else c
  }

  function Add(t: Tally, c: Contribution, dim: string): Tally {
    if !Counts(c, dim) then t
    else Tally(t.moment + c.score.raw as real * c.score.weight, t.mass + c.score.weight,
               if c.cap.Some? then Some(Lower(t.cap, c.cap.value)) else t.cap)
  }

  function TallyOf(cs: seq<Contribution>, dim: string): Tally {
    if cs == [] then Tally(0.0, 0.0, None) else Add(TallyOf(cs[..|cs| - 1], dim), cs[|cs| - 1], dim)
  }

  /** The rounded weighted mean; 0 when no signal carries weight. */
  function Mean(t: Tally): int {
    MeanOf(t.moment, t.mass)
  }

  function MeanOf(moment: real, mass: real): int {
    if mass == 0.0 then 0 else Round(moment / mass)
  }

  function ScoreOf(t: Tally): int {
    if t.cap.Some? then Lower(t.cap, Mean(t)) else Mean(t)
  }

  function SignalScores(cs: seq<Contribution>, dim: string): seq<SignalScore> {
    if cs == [] then []
    else
      var c := cs[|cs| - 1];
      SignalScores(cs[..|cs| - 1], dim) + if c.score.dimension == dim then [c.score] else []
  }

  function Risks(cs: seq<Contribution>): seq<string> {
    if cs == [] then []
    else
      var c := cs[|cs| - 1];
      Risks(cs[..|cs| - 1]) + if c.score.weight > 0.0 then c.risks else []
  }

  /** A dimension drives the cascade when its gate is on and it has weight. */
  predicate Active(cs: seq<Contribution>, profile: Profile, dim: string) {
    WeightIn(profile.dimensionWeights, dim) > 0.0 && TallyOf(cs, dim).mass > 0.0
  }

  function Scores(cs: seq<Contribution>, dims: seq<string>): map<string, int> {
    map d | d in dims :: ScoreOf(TallyOf(cs, d))
  }

  function Actives(cs: seq<Contribution>, profile: Profile, dims: seq<string>): map<string, bool> {
    map d | d in dims :: Active(cs, profile, d)
  }

  function VectorOf(cs: seq<Contribution>): TrustVector {
    TrustVector(ScoreOf(TallyOf(cs, INTEGRITY)), ScoreOf(TallyOf(cs, IDENTITY)), ScoreOf(TallyOf(cs, SOLVENCY)),
                ScoreOf(TallyOf(cs, BEHAVIOR)), ScoreOf(TallyOf(cs, SAFETY)))
  }

  function Recommended(cs: seq<Contribution>, profile: Profile, t: Thresholds): Recommendation {
    Classify(t, Scores(cs, ALL_DIMENSIONS), Actives(cs, profile, ALL_DIMENSIONS))
  }

  function DimensionOf(cs: seq<Contribution>, dim: string): DimensionScore {
    DimensionScore(dim, ScoreOf(TallyOf(cs, dim)), SignalScores(cs, dim))
  }

  function DimensionsOf(cs: seq<Contribution>, dims: seq<string>): seq<DimensionScore> {
    seq(|dims|, i requires 0 <= i < |dims| => DimensionOf(cs, dims[i]))
  }

  function Evaluation(cs: seq<Contribution>, agent: string, now: Instant, profile: Profile, t: Thresholds): TrustEvaluation {
    TrustEvaluation(
      agent, now, VectorOf(cs), Recommended(cs, profile, t), Dedupe(Risks(cs)), DimensionsOf(cs, ALL_DIMENSIONS), profile.name)
  }

  predicate Readable(signals: seq<Signal>, read: Reader) {
    forall i :: 0 <= i < |signals| ==> read(signals[i].id).Ok?
  }

  /** The evaluation of an agent; there is none when an observation cannot be read. */
  function Evaluated(signals: seq<Signal>, read: Reader, agent: Agent, profile: Profile, t: Thresholds, now: Instant): Option<TrustEvaluation> {
    if !Readable(signals, read) then None
    else Some(Evaluation(Contributions(signals, agent, read, profile), agent.id, now, profile, t))
  }

  // ----- the engine's own loops

  function Moment(scores: seq<SignalScore>): real {
    if scores == [] then 0.0
    else
      var s := scores[|scores| - 1];
      Moment(scores[..|scores| - 1]) + if s.weight > 0.0 then s.raw as real * s.weight else 0.0
  }

  function Mass(scores: seq<SignalScore>): (m: real)
    ensures m >= 0.0
  {
    if scores == [] then 0.0
    else
      var s := scores[|scores| - 1];
      Mass(scores[..|scores| - 1]) + if s.weight > 0.0 then s.weight else 0.0
  }

  predicate HasWeightedSignal(scores: seq<SignalScore>) {
    exists i :: 0 <= i < |scores| && scores[i].weight > 0.0
  }

  /** A dimension has weight exactly when one of its signals has. */
  lemma {:induction false} MassIsWeight(scores: seq<SignalScore>)
    ensures Mass(scores) > 0.0 <==> HasWeightedSignal(scores)
  {
    if scores != [] {
      var front := scores[..|scores| - 1];
      MassIsWeight(front);
      assert forall i :: 0 <= i < |front| ==> front[i] == scores[i];
    }
  }

  lemma MassSnoc(scores: seq<SignalScore>, s: SignalScore)
    ensures Moment([]) == 0.0 && Mass([]) == 0.0
    ensures Moment(scores + [s]) == Moment(scores) + if s.weight > 0.0 then s.raw as real * s.weight else 0.0
    ensures Mass(scores + [s]) == Mass(scores) + if s.weight > 0.0 then s.weight else 0.0
  {
    assert (scores + [s])[..|scores|] == scores;
  }

  lemma ListCarriesOneMore(scores: seq<SignalScore>, t: Tally, c: Contribution, dim: string)
    requires Moment(scores) == t.moment && Mass(scores) == t.mass
    ensures
      var more := scores + if c.score.dimension == dim then [c.score] else [];
      Moment(more) == Add(t, c, dim).moment && Mass(more) == Add(t, c, dim).mass
  {
    if c.score.dimension == dim {
      MassSnoc(scores, c.score);
    } else {
      assert scores + [] == scores;
    }
  }

  /** A dimension's list carries the dimension's tally. */
  lemma {:induction false} ListCarriesTally(cs: seq<Contribution>, dim: string)
    ensures Moment(SignalScores(cs, dim)) == TallyOf(cs, dim).moment
    ensures Mass(SignalScores(cs, dim)) == TallyOf(cs, dim).mass
  {
    if cs != [] {
      var front, c := cs[..|cs| - 1], cs[|cs| - 1];
      ListCarriesTally(front, dim);
      ListCarriesOneMore(SignalScores(front, dim), TallyOf(front, dim), c, dim);
    }
  }

  method WeightedAverage(scores: seq<SignalScore>) returns (mean: int)
    ensures mean == MeanOf(Moment(scores), Mass(scores))
  {
    var sumWeighted, sumWeight := 0.0, 0.0;
    for i := 0 to |scores|
      invariant sumWeighted == Moment(scores[..i]) && sumWeight == Mass(scores[..i])
    {
      assert scores[..i + 1][..i] == scores[..i];
      if scores[i].weight > 0.0 {
        sumWeighted := sumWeighted + scores[i].raw as real * scores[i].weight;
        sumWeight := sumWeight + scores[i].weight;
      }
    }
    assert scores[..|scores|] == scores;
    mean := MeanOf(sumWeighted, sumWeight);
  }

  method MinInt(xs: seq<int>) returns (m: int)
    requires xs != []
    ensures m in xs && forall i :: 0 <= i < |xs| ==> m <= xs[i]
  {
    m := xs[0];
    for i := 1 to |xs|
      invariant m in xs && forall j :: 0 <= j < i ==> m <= xs[j]
    {
      if xs[i] < m {
        m := xs[i];
      }
    }
  }

  method DedupePreserveOrder(codes: seq<string>) returns (out: seq<string>)
    ensures out == Dedupe(codes)
  {
    var seen: set<string> := {};
    out := [];
    for i := 0 to |codes|
      invariant out == Dedupe(codes[..i])
      invariant forall x :: x in seen <==> x in codes[..i]
    {
      assert codes[..i + 1] == codes[..i] + [codes[i]];
      DedupeSnoc(codes[..i], codes[i]);
      if codes[i] !in seen {
        seen := seen + {codes[i]};
        out := out + [codes[i]];
      }
    }
    assert codes[..|codes|] == codes;
  }

  function In<T>(m: map<string, seq<T>>, dim: string): seq<T> {
    if dim in m then m[dim] else []
  }

  /** The caps recorded for a dimension, in registry order. */
  function Caps(cs: seq<Contribution>, dim: string): seq<int> {
    if cs == [] then []
    else
      var c := cs[|cs| - 1];
      Caps(cs[..|cs| - 1], dim) + if Counts(c, dim) && c.cap.Some? then [c.cap.value] else []
  }

  lemma {:induction false} CapsAndTally(cs: seq<Contribution>, dim: string)
    ensures TallyOf(cs, dim).cap.None? <==> Caps(cs, dim) == []
    ensures TallyOf(cs, dim).cap.Some? ==>
      var low := TallyOf(cs, dim).cap.value;
      low in Caps(cs, dim) && forall i :: 0 <= i < |Caps(cs, dim)| ==> low <= Caps(cs, dim)[i]
  {
    if cs != [] {
      CapsAndTally(cs[..|cs| - 1], dim);
    }
  }

  /** The per-dimension maps after a prefix of the registry. */
  ghost predicate Filled(cs: seq<Contribution>, byDimension: map<string, seq<SignalScore>>,
                         caps: map<string, seq<int>>, risks: seq<string>) {
    && (forall d :: In(byDimension, d) == SignalScores(cs, d))
    && (forall d :: In(caps, d) == Caps(cs, d))
    && risks == Risks(cs)
  }

  /** One iteration of the registry loop. */
  method Record(c: Contribution, ghost cs: seq<Contribution>, byDimension0: map<string, seq<SignalScore>>,
                caps0: map<string, seq<int>>, risks0: seq<string>)
    returns (byDimension: map<string, seq<SignalScore>>, caps: map<string, seq<int>>, risks: seq<string>)
    requires Filled(cs, byDimension0, caps0, risks0)
    ensures Filled(cs + [c], byDimension, caps, risks)
  {
    byDimension, caps, risks := byDimension0, caps0, risks0;
    var dim := c.score.dimension;
    byDimension := byDimension[dim := In(byDimension, dim) + [c.score]];
    if c.score.weight > 0.0 {
      risks := risks + c.risks;
      if c.cap.Some? {
        caps := caps[dim := In(caps, dim) + [c.cap.value]];
      }
    }
    assert (cs + [c])[..|cs|] == cs;
  }

  /** One iteration of the roll-up loop. */
  method RollUp(dim: string, ghost cs: seq<Contribution>, scores: seq<SignalScore>, caps: seq<int>)
    returns (score: int, weighted: bool)
    requires scores == SignalScores(cs, dim) && caps == Caps(cs, dim)
    ensures score == ScoreOf(TallyOf(cs, dim))
    ensures weighted <==> TallyOf(cs, dim).mass > 0.0
  {
    ListCarriesTally(cs, dim);
    CapsAndTally(cs, dim);
    score := WeightedAverage(scores);
    if caps != [] {
      var low := MinInt(caps);
      if low < score {
        score := low;
      }
    }
    MassIsWeight(scores);
    weighted := HasWeightedSignal(scores);
  }

  /** The registry loop: stops at the first unreadable observation. */
  method Gather(signals: seq<Signal>, read: Reader, agent: Agent, profile: Profile)
    returns (failed: Option<string>, byDimension: map<string, seq<SignalScore>>, caps: map<string, seq<int>>, risks: seq<string>)
    ensures failed.None? <==> Readable(signals, read)
    ensures failed.None? ==> Filled(Contributions(signals, agent, read, profile), byDimension, caps, risks)
  {
    byDimension, caps, risks := map[], map[], [];
    for i := 0 to |signals|
      invariant forall j :: 0 <= j < i ==> read(signals[j].id).Ok?
      invariant Filled(Contributions(signals[..i], agent, read, profile), byDimension, caps, risks)
    {
      var sig := signals[i];
      var looked := read(sig.id);
      if looked.Err? {
        failed := Some("engine: latest observation " + agent.id + "/" + sig.id + ": " + looked.error);
        return;
      }
      ghost var sofar := Contributions(signals[..i], agent, read, profile);
      assert signals[..i + 1][..i] == signals[..i];
      if Skipped(sig, looked.value) {
        assert Contributions(signals[..i + 1], agent, read, profile) == sofar;
      } else {
        var c := Contribute(sig, agent, looked.value, profile);
        assert Contributions(signals[..i + 1], agent, read, profile) == sofar + [c];
        byDimension, caps, risks := Record(c, sofar, byDimension, caps, risks);
      }
    }
    assert signals[..|signals|] == signals;
    failed := None;
  }

  lemma ScoresGrow(cs: seq<Contribution>, dims: seq<string>, d: string)
    ensures Scores(cs, dims + [d]) == Scores(cs, dims)[d := ScoreOf(TallyOf(cs, d))]
  {
  }

  lemma ActivesGrow(cs: seq<Contribution>, profile: Profile, dims: seq<string>, d: string)
    ensures Actives(cs, profile, dims + [d]) == Actives(cs, profile, dims)[d := Active(cs, profile, d)]
  {
  }

  lemma DimensionsGrow(cs: seq<Contribution>, dims: seq<string>, d: string)
    ensures DimensionsOf(cs, dims + [d]) == DimensionsOf(cs, dims) + [DimensionOf(cs, d)]
  {
  }

  /** The roll-up loop over the listed dimensions. */
  method RollUpAll(all: seq<string>, ghost cs: seq<Contribution>, byDimension: map<string, seq<SignalScore>>,
                   caps: map<string, seq<int>>, profile: Profile)
    returns (dims: seq<DimensionScore>, scores: map<string, int>, active: map<string, bool>)
    requires forall d :: In(byDimension, d) == SignalScores(cs, d)
    requires forall d :: In(caps, d) == Caps(cs, d)
    ensures dims == DimensionsOf(cs, all) && scores == Scores(cs, all) && active == Actives(cs, profile, all)
  {
    dims, scores, active := [], map[], map[];
    for k := 0 to |all|
      invariant dims == DimensionsOf(cs, all[..k])
      invariant scores == Scores(cs, all[..k]) && active == Actives(cs, profile, all[..k])
    {
      var dim := all[k];
      assert all[..k + 1] == all[..k] + [dim];
      ScoresGrow(cs, all[..k], dim);
      ActivesGrow(cs, profile, all[..k], dim);
      DimensionsGrow(cs, all[..k], dim);
      var score, weighted := RollUp(dim, cs, In(byDimension, dim), In(caps, dim));
      scores := scores[dim := score];
      dims := dims + [DimensionScore(dim, score, In(byDimension, dim))];
      active := active[dim := WeightIn(profile.dimensionWeights, dim) > 0.0 && weighted];
    }
    assert all[..|all|] == all;
  }

  /** Fails exactly when some registered signal's observation cannot be read, and
      otherwise computes the specified evaluation. */
  method Evaluate(signals: seq<Signal>, read: Reader, agent: Agent, profile: Profile, t: Thresholds, now: Instant)
    returns (r: Result<TrustEvaluation>)
    ensures r.Ok? <==> Evaluated(signals, read, agent, profile, t, now).Some?
    ensures r.Ok? ==> r.value == Evaluated(signals, read, agent, profile, t, now).value
  {
    var failed, byDimension, caps, risks := Gather(signals, read, agent, profile);
    if failed.Some? {
      return Err(failed.value);
    }
    ghost var cs := Contributions(signals, agent, read, profile);
    var dims, scores, active := RollUpAll(ALL_DIMENSIONS, cs, byDimension, caps, profile);
    var factors := DedupePreserveOrder(risks);
    r := Ok(TrustEvaluation(
      agent.id, now,
      TrustVector(At(scores, INTEGRITY), At(scores, IDENTITY), At(scores, SOLVENCY), At(scores, BEHAVIOR), At(scores, SAFETY)),
      Classify(t, scores, active), factors, dims, profile.name));
    ScoresAt(cs);
  }

  lemma ScoresAt(cs: seq<Contribution>)
    ensures forall d :: d in ALL_DIMENSIONS ==> At(Scores(cs, ALL_DIMENSIONS), d) == ScoreOf(TallyOf(cs, d))
    ensures {INTEGRITY, IDENTITY, SOLVENCY, BEHAVIOR, SAFETY} == set d | d in ALL_DIMENSIONS
  {
    assert INTEGRITY == ALL_DIMENSIONS[0] && IDENTITY == ALL_DIMENSIONS[1] && SOLVENCY == ALL_DIMENSIONS[2];
    assert BEHAVIOR == ALL_DIMENSIONS[3] && SAFETY == ALL_DIMENSIONS[4];
  }
}
