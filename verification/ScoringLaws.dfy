/** What every evaluation satisfies, for any registry of any signals. */
module ScoringLaws {
  import opened Text
  import opened TimeText
  import opened Domain
  import opened Signals
  import opened Cascade
  import opened Scoring

  // ----- range, mean and caps

  predicate Sane(cs: seq<Contribution>) {
    forall i :: 0 <= i < |cs| ==>
      0 <= cs[i].score.raw <= 100 && (cs[i].cap.Some? ==> 0 <= cs[i].cap.value <= 100)
  }

  lemma {:induction false} ContributionsSane(signals: seq<Signal>, agent: Agent, read: Reader, profile: Profile)
    ensures Sane(Contributions(signals, agent, read, profile))
  {
    if signals != [] {
      ContributionsSane(signals[..|signals| - 1], agent, read, profile);
    }
  }

  lemma Scale(a: real, b: real, w: real)
    requires a <= b && w >= 0.0
    ensures a * w <= b * w
  {
    assert (b - a) * w >= 0.0;
  }

  lemma AddBetween(moment: real, mass: real, raw: real, w: real, lo: real, hi: real)
    requires w >= 0.0 && lo <= raw <= hi && lo * mass <= moment <= hi * mass
    ensures lo * (mass + w) <= moment + raw * w <= hi * (mass + w)
  {
    Scale(lo, raw, w);
    Scale(raw, hi, w);
    assert lo * (mass + w) == lo * mass + lo * w;
    assert hi * (mass + w) == hi * mass + hi * w;
  }

  /** Total weight and total weighted score stay in proportion. */
  lemma {:induction false} TallyBetween(cs: seq<Contribution>, dim: string, lo: int, hi: int)
    requires forall i :: 0 <= i < |cs| && Counts(cs[i], dim) ==> lo <= cs[i].score.raw <= hi
    ensures
      var t := TallyOf(cs, dim);
      t.mass >= 0.0 && lo as real * t.mass <= t.moment <= hi as real * t.mass
    ensures TallyOf(cs, dim).mass > 0.0 <==> exists i :: 0 <= i < |cs| && Counts(cs[i], dim)
  {
    if cs != [] {
      var front, c := cs[..|cs| - 1], cs[|cs| - 1];
      TallyBetween(front, dim, lo, hi);
      assert forall i :: 0 <= i < |front| ==> front[i] == cs[i];
      if Counts(c, dim) {
        var t := TallyOf(front, dim);
        AddBetween(t.moment, t.mass, c.score.raw as real, c.score.weight, lo as real, hi as real);
      }
    }
  }

  lemma QuotientBetween(moment: real, mass: real, lo: real, hi: real)
    requires mass > 0.0 && lo * mass <= moment <= hi * mass
    ensures lo <= moment / mass <= hi
  {
    var q := moment / mass;
    assert q * mass == moment;
  }

  lemma RoundBetween(q: real, lo: int, hi: int)
    requires lo as real <= q <= hi as real
    ensures lo <= Round(q) <= hi
    ensures q - 0.5 < Round(q) as real <= q + 0.5
  {
  }

  lemma MeanOfBetween(moment: real, mass: real, lo: int, hi: int)
    requires mass > 0.0 && lo as real * mass <= moment <= hi as real * mass
    ensures lo <= MeanOf(moment, mass) <= hi
    ensures moment / mass - 0.5 < MeanOf(moment, mass) as real <= moment / mass + 0.5
  {
    QuotientBetween(moment, mass, lo as real, hi as real);
    RoundBetween(moment / mass, lo, hi);
  }

  /** Before caps, a weighted dimension lies between its least and greatest
      weighted raw score, within half a point of the exact mean. */
  lemma MeanBetween(cs: seq<Contribution>, dim: string, lo: int, hi: int)
    requires forall i :: 0 <= i < |cs| && Counts(cs[i], dim) ==> lo <= cs[i].score.raw <= hi
    requires TallyOf(cs, dim).mass > 0.0
    ensures lo <= Mean(TallyOf(cs, dim)) <= hi
    ensures
      var t := TallyOf(cs, dim);
      t.moment / t.mass - 0.5 < Mean(t) as real <= t.moment / t.mass + 0.5
  {
    var t := TallyOf(cs, dim);
    TallyBetween(cs, dim, lo, hi);
    MeanOfBetween(t.moment, t.mass, lo, hi);
  }

  /** A dimension's score is the lowest among its rounded mean and the caps of its
      weighted signals, and stays within the published scale. */
  lemma ScoreIsLowest(cs: seq<Contribution>, dim: string)
    requires Sane(cs)
    ensures
      var score, mean := ScoreOf(TallyOf(cs, dim)), Mean(TallyOf(cs, dim));
      && 0 <= score <= 100
      && score <= mean
      && (forall i :: 0 <= i < |cs| && Counts(cs[i], dim) && cs[i].cap.Some? ==> score <= cs[i].cap.value)
      && (score == mean || exists i :: 0 <= i < |cs| && Counts(cs[i], dim) && cs[i].cap == Some(score))
  {
    TallyBetween(cs, dim, 0, 100);
    if TallyOf(cs, dim).mass > 0.0 {
      MeanBetween(cs, dim, 0, 100);
    }
    CapIsAttained(cs, dim);
    forall i | 0 <= i < |cs| && Counts(cs[i], dim) && cs[i].cap.Some?
      ensures TallyOf(cs, dim).cap.Some? && TallyOf(cs, dim).cap.value <= cs[i].cap.value
    {
      CapBinds(cs, dim, i);
    }
  }

  lemma {:induction false} CapBinds(cs: seq<Contribution>, dim: string, i: nat)
    requires i < |cs| && Counts(cs[i], dim) && cs[i].cap.Some?
    ensures TallyOf(cs, dim).cap.Some? && TallyOf(cs, dim).cap.value <= cs[i].cap.value
  {
    if i < |cs| - 1 {
      CapBinds(cs[..|cs| - 1], dim, i);
    }
  }

  lemma {:induction false} CapIsAttained(cs: seq<Contribution>, dim: string)
    ensures TallyOf(cs, dim).cap.Some? ==>
      exists i :: 0 <= i < |cs| && Counts(cs[i], dim) && cs[i].cap == TallyOf(cs, dim).cap
  {
    if cs != [] && TallyOf(cs, dim).cap.Some? {
      var front, c := cs[..|cs| - 1], cs[|cs| - 1];
      CapIsAttained(front, dim);
      if TallyOf(front, dim).cap == TallyOf(cs, dim).cap {
        var i :| 0 <= i < |front| && Counts(front[i], dim) && front[i].cap == TallyOf(front, dim).cap;
        assert cs[i] == front[i];
      } else {
        assert Counts(cs[|cs| - 1], dim);
      }
    }
  }

  // ----- insertion and permutation

  lemma {:induction false} TallyInsert(a: seq<Contribution>, c: Contribution, b: seq<Contribution>, dim: string)
    ensures TallyOf(a + [c] + b, dim) == Add(TallyOf(a + b, dim), c, dim)
  {
    if b == [] {
      assert a + [c] + b == a + [c] && a + b == a && (a + [c])[..|a|] == a;
    } else {
      var front := b[..|b| - 1];
      TallyInsert(a, c, front, dim);
      assert (a + [c] + b)[..|a + [c] + b| - 1] == a + [c] + front;
      assert (a + b)[..|a + b| - 1] == a + front;
    }
  }

  /** Where a member of a permuted list sits, and what remains. */
  lemma PermutedMember<T>(s: seq<T>, t: seq<T>) returns (a: seq<T>, b: seq<T>)
    requires s != [] && multiset(s) == multiset(t)
    ensures t == a + [s[|s| - 1]] + b && multiset(s[..|s| - 1]) == multiset(a + b)
  {
    var x := s[|s| - 1];
    assert s == s[..|s| - 1] + [x];
    assert x in multiset(t);
    var i :| 0 <= i < |t| && t[i] == x;
    a, b := t[..i], t[i + 1..];
    assert t == a + [x] + b;
    assert multiset(a + b) == multiset(t) - multiset{x};
    assert multiset(s[..|s| - 1]) == multiset(s) - multiset{x};
  }

  lemma {:induction false} PermutedTally(cs: seq<Contribution>, ds: seq<Contribution>, dim: string)
    requires multiset(cs) == multiset(ds)
    ensures TallyOf(cs, dim) == TallyOf(ds, dim)
  {
    if cs == [] {
      assert |multiset(ds)| == 0;
      assert ds == [];
    } else {
      var a, b := PermutedMember(cs, ds);
      PermutedTally(cs[..|cs| - 1], a + b, dim);
      TallyInsert(a, cs[|cs| - 1], b, dim);
    }
  }

  lemma {:induction false} RiskMembers(cs: seq<Contribution>, code: string)
    ensures code in Risks(cs) <==> exists c :: c in cs && c.score.weight > 0.0 && code in c.risks
  {
    if cs != [] {
      RiskMembers(cs[..|cs| - 1], code);
      assert cs == cs[..|cs| - 1] + [cs[|cs| - 1]];
    }
  }

  lemma {:induction false} ContributionsConcat(a: seq<Signal>, b: seq<Signal>, agent: Agent, read: Reader, profile: Profile)
    ensures Contributions(a + b, agent, read, profile)
         == Contributions(a, agent, read, profile) + Contributions(b, agent, read, profile)
  {
    if b == [] {
      assert a + b == a;
    } else {
      assert (a + b)[..|a + b| - 1] == a + b[..|b| - 1];
      ContributionsConcat(a, b[..|b| - 1], agent, read, profile);
    }
  }

  lemma ContributionsAround(a: seq<Signal>, x: seq<Signal>, b: seq<Signal>, agent: Agent, read: Reader, profile: Profile)
    ensures Contributions(a + x + b, agent, read, profile)
         == Contributions(a, agent, read, profile) + Contributions(x, agent, read, profile) + Contributions(b, agent, read, profile)
    ensures Contributions(a + b, agent, read, profile)
         == Contributions(a, agent, read, profile) + Contributions(b, agent, read, profile)
  {
    ContributionsConcat(a, b, agent, read, profile);
    ContributionsConcat(a + x, b, agent, read, profile);
    ContributionsConcat(a, x, agent, read, profile);
  }

  lemma {:induction false} PermutedContributions(s: seq<Signal>, t: seq<Signal>, agent: Agent, read: Reader, profile: Profile)
    requires multiset(s) == multiset(t)
    ensures multiset(Contributions(s, agent, read, profile)) == multiset(Contributions(t, agent, read, profile))
  {
    if s == [] {
      assert |multiset(t)| == 0;
      assert t == [];
    } else {
      var a, b := PermutedMember(s, t);
      var front, x := s[..|s| - 1], [s[|s| - 1]];
      PermutedContributions(front, a + b, agent, read, profile);
      ContributionsAround(a, x, b, agent, read, profile);
      ContributionsConcat(front, x, agent, read, profile);
      assert s == front + x && t == a + x + b;
      PermutedAround(Contributions(front, agent, read, profile), Contributions(x, agent, read, profile),
                     Contributions(a, agent, read, profile), Contributions(b, agent, read, profile));
    }
  }

  lemma PermutedAround<T>(front: seq<T>, x: seq<T>, a: seq<T>, b: seq<T>)
    requires multiset(front) == multiset(a + b)
    ensures multiset(front + x) == multiset(a + x + b)
  {
  }

  /** The whole evaluation but for the order of listings depends only on which
      contributions there are. */
  lemma SameTalliesSameVerdict(cs: seq<Contribution>, ds: seq<Contribution>, profile: Profile, t: Thresholds)
    requires forall d :: TallyOf(cs, d) == TallyOf(ds, d)
    ensures VectorOf(cs) == VectorOf(ds)
    ensures Recommended(cs, profile, t) == Recommended(ds, profile, t)
  {
    assert Scores(cs, ALL_DIMENSIONS) == Scores(ds, ALL_DIMENSIONS);
    assert Actives(cs, profile, ALL_DIMENSIONS) == Actives(ds, profile, ALL_DIMENSIONS);
  }

  lemma PermutedReadable(s: seq<Signal>, r: seq<Signal>, read: Reader)
    requires multiset(s) == multiset(r)
    ensures Readable(s, read) <==> Readable(r, read)
  {
    forall sig
      ensures sig in s <==> sig in r
    {
      assert sig in multiset(s) <==> sig in multiset(r);
    }
    assert forall i :: 0 <= i < |s| ==> s[i] in r;
    assert forall i :: 0 <= i < |r| ==> r[i] in s;
  }

  /** Registering the same signals in another order gives an evaluation or none as
      before, and changes neither the trust vector, nor the recommended profile,
      nor the set of risk codes. */
  lemma RegistrationOrderIsIrrelevant(s: seq<Signal>, r: seq<Signal>, agent: Agent, read: Reader,
                                      profile: Profile, t: Thresholds, now: Instant)
    requires multiset(s) == multiset(r)
    ensures
      var e := Evaluated(s, read, agent, profile, t, now);
      var f := Evaluated(r, read, agent, profile, t, now);
      && (e.Some? <==> f.Some?)
      && (e.Some? ==>
            && e.value.vector == f.value.vector && e.value.recommended == f.value.recommended
            && forall code :: code in e.value.riskFactors <==> code in f.value.riskFactors)
  {
    PermutedReadable(s, r, read);
    PermutedVerdict(s, r, agent, read, profile, t, now);
  }

  lemma PermutedVerdict(s: seq<Signal>, r: seq<Signal>, agent: Agent, read: Reader,
                        profile: Profile, t: Thresholds, now: Instant)
    requires multiset(s) == multiset(r)
    ensures
      var e := Evaluation(Contributions(s, agent, read, profile), agent.id, now, profile, t);
      var f := Evaluation(Contributions(r, agent, read, profile), agent.id, now, profile, t);
      && e.vector == f.vector && e.recommended == f.recommended
      && forall code :: code in e.riskFactors <==> code in f.riskFactors
  {
    var cs, ds := Contributions(s, agent, read, profile), Contributions(r, agent, read, profile);
    PermutedContributions(s, r, agent, read, profile);
    forall d
      ensures TallyOf(cs, d) == TallyOf(ds, d)
    {
      PermutedTally(cs, ds, d);
    }
    SameTalliesSameVerdict(cs, ds, profile, t);
    DedupeMembers(Risks(cs));
    DedupeMembers(Risks(ds));
    forall code
      ensures code in Risks(cs) <==> code in Risks(ds)
    {
      RiskMembers(cs, code);
      RiskMembers(ds, code);
      assert forall c :: c in cs <==> c in multiset(cs);
      assert forall c :: c in ds <==> c in multiset(ds);
    }
  }

  // ----- monotonicity

  predicate NoLower(c: Contribution, d: Contribution) {
    && c.score.dimension == d.score.dimension && c.score.weight == d.score.weight
    && c.score.raw <= d.score.raw
    && (d.cap.Some? ==> c.cap.Some? && c.cap.value <= d.cap.value)
  }

  /** The same signals take part, and no raw score and no cap went down. */
  predicate Improves(cs: seq<Contribution>, ds: seq<Contribution>) {
    |cs| == |ds| && forall i :: 0 <= i < |cs| ==> NoLower(cs[i], ds[i])
  }

  lemma {:induction false} TallyImproves(cs: seq<Contribution>, ds: seq<Contribution>, dim: string)
    requires Improves(cs, ds)
    ensures
      var t, u := TallyOf(cs, dim), TallyOf(ds, dim);
      && t.mass == u.mass && t.mass >= 0.0 && t.moment <= u.moment
      && (u.cap.Some? ==> t.cap.Some? && t.cap.value <= u.cap.value)
  {
    if cs != [] {
      var c, d := cs[|cs| - 1], ds[|ds| - 1];
      TallyImproves(cs[..|cs| - 1], ds[..|ds| - 1], dim);
      assert NoLower(c, d);
      if Counts(c, dim) {
        Scale(c.score.raw as real, d.score.raw as real, c.score.weight);
      }
    }
  }

  lemma ScoreImproves(cs: seq<Contribution>, ds: seq<Contribution>, dim: string)
    requires Improves(cs, ds)
    ensures ScoreOf(TallyOf(cs, dim)) <= ScoreOf(TallyOf(ds, dim))
  {
    TallyImproves(cs, ds, dim);
    var t, u := TallyOf(cs, dim), TallyOf(ds, dim);
    if t.mass > 0.0 {
      QuotientImproves(t.moment, u.moment, t.mass);
    }
  }

  lemma QuotientImproves(a: real, b: real, mass: real)
    requires mass > 0.0 && a <= b
    ensures a / mass <= b / mass
  {
    var q := b / mass;
    assert q * mass == b;
    QuotientBelow(a, mass, q);
  }

  lemma QuotientBelow(a: real, mass: real, q: real)
    requires mass > 0.0 && a <= q * mass
    ensures a / mass <= q
  {
    var p := a / mass;
    assert p * mass == a;
    if p > q {
      assert (p - q) * mass > 0.0;
    }
  }

  predicate VectorNoLower(v: TrustVector, w: TrustVector) {
    v.integrity <= w.integrity && v.identity <= w.identity && v.solvency <= w.solvency &&
    v.behavior <= w.behavior && v.safety <= w.safety
  }

  /** If no raw score and no cap goes down, no component of the vector goes down
      and the recommendation never drops. */
  lemma BetterEvidenceNeverDemotes(cs: seq<Contribution>, ds: seq<Contribution>, agent: string, now: Instant,
                                   profile: Profile, t: Thresholds)
    requires Improves(cs, ds)
    ensures
      var e, f := Evaluation(cs, agent, now, profile, t), Evaluation(ds, agent, now, profile, t);
      VectorNoLower(e.vector, f.vector) && Rank(e.recommended) <= Rank(f.recommended)
  {
    forall d
      ensures ScoreOf(TallyOf(cs, d)) <= ScoreOf(TallyOf(ds, d))
      ensures Active(cs, profile, d) == Active(ds, profile, d)
    {
      ScoreImproves(cs, ds, d);
      TallyImproves(cs, ds, d);
    }
    assert Actives(cs, profile, ALL_DIMENSIONS) == Actives(ds, profile, ALL_DIMENSIONS);
    RaisingScoresNeverDemotes(t, Scores(cs, ALL_DIMENSIONS), Scores(ds, ALL_DIMENSIONS), Actives(cs, profile, ALL_DIMENSIONS));
  }

  predicate ResultNoLower(r: SignalResult, q: SignalResult) {
    r.raw <= q.raw && (q.cap.Some? ==> r.cap.Some? && r.cap.value <= q.cap.value)
  }

  /** The same signals take part in both readings, and none does worse in the
      second. */
  predicate NoWorse(signals: seq<Signal>, agent: Agent, read: Reader, agent': Agent, read': Reader) {
    forall i :: 0 <= i < |signals| ==>
      var sig := signals[i];
      && (Skipped(sig, Seen(read, sig.id)) <==> Skipped(sig, Seen(read', sig.id)))
      && (!Skipped(sig, Seen(read, sig.id)) ==>
            ResultNoLower(Outcome(sig, agent, Seen(read, sig.id)), Outcome(sig, agent', Seen(read', sig.id))))
  }

  lemma {:induction false} ContributionsImprove(signals: seq<Signal>, agent: Agent, read: Reader, agent': Agent, read': Reader, profile: Profile)
    requires NoWorse(signals, agent, read, agent', read')
    ensures Improves(Contributions(signals, agent, read, profile), Contributions(signals, agent', read', profile))
  {
    if signals != [] {
      var front, sig := signals[..|signals| - 1], signals[|signals| - 1];
      assert forall i :: 0 <= i < |front| ==> front[i] == signals[i];
      ContributionsImprove(front, agent, read, agent', read', profile);
      if !Skipped(sig, Seen(read, sig.id)) {
        assert NoLower(Contribute(sig, agent, Seen(read, sig.id), profile), Contribute(sig, agent', Seen(read', sig.id), profile));
      }
    }
  }

  /** The whole engine is monotone in what the signals answer, whatever evidence
      or agent change made them answer so. */
  lemma BetterReadingsNeverDemote(signals: seq<Signal>, agent: Agent, read: Reader, agent': Agent, read': Reader,
                                  profile: Profile, t: Thresholds, now: Instant)
    requires NoWorse(signals, agent, read, agent', read') && Readable(signals, read) && Readable(signals, read')
    ensures
      var e, f := Evaluated(signals, read, agent, profile, t, now).value, Evaluated(signals, read', agent', profile, t, now).value;
      VectorNoLower(e.vector, f.vector) && Rank(e.recommended) <= Rank(f.recommended)
  {
    ContributionsImprove(signals, agent, read, agent', read', profile);
    BetterEvidenceNeverDemotes(Contributions(signals, agent, read, profile), Contributions(signals, agent', read', profile),
                               "", now, profile, t);
  }

  // ----- gates

  /** A weighted signal that caps an enabled dimension below the untrusted bar
      settles the verdict, whatever surrounds it in the registry: there is an
      evaluation exactly when every observation can be read, and it is UNTRUSTED. */
  lemma GateIsDecisive(before: seq<Signal>, gate: Signal, after: seq<Signal>, agent: Agent, read: Reader,
                       profile: Profile, t: Thresholds, now: Instant, res: SignalResult)
    requires !Skipped(gate, Seen(read, gate.id)) && gate.evaluate(agent, Seen(read, gate.id)) == Ok(res)
    requires res.cap.Some? && res.cap.value < t.untrusted && Ascending(t)
    requires WeightIn(profile.signalWeights, gate.id) > 0.0
    requires gate.dimension in ALL_DIMENSIONS && WeightIn(profile.dimensionWeights, gate.dimension) > 0.0
    ensures
      var e := Evaluated(before + [gate] + after, read, agent, profile, t, now);
      && (e.Some? <==> Readable(before + [gate] + after, read))
      && (e.Some? ==> e.value.recommended == Untrusted)
  {
    var cs := Contributions(before + [gate] + after, agent, read, profile);
    var a := Contributions(before, agent, read, profile);
    var c := Contribute(gate, agent, Seen(read, gate.id), profile);
    OneMoreContribution(before, gate, after, agent, read, profile);
    assert cs[|a|] == c && Counts(cs[|a|], gate.dimension);
    ContributionsSane(before + [gate] + after, agent, read, profile);
    ScoreIsLowest(cs, gate.dimension);
    TallyBetween(cs, gate.dimension, 0, 100);
    var scores, active := Scores(cs, ALL_DIMENSIONS), Actives(cs, profile, ALL_DIMENSIONS);
    assert gate.dimension in active && active[gate.dimension] && At(scores, gate.dimension) < t.untrusted;
  }

  // ----- neutrality

  /** A signal whose absence means nothing, and that has no observation, is as
      good as not registered. */
  lemma AbsentSignalIsNeutral(before: seq<Signal>, sig: Signal, after: seq<Signal>, agent: Agent, read: Reader, profile: Profile,
                              t: Thresholds, now: Instant)
    requires !sig.absenceInformative && read(sig.id) == Ok(None)
    ensures Evaluated(before + [sig] + after, read, agent, profile, t, now) == Evaluated(before + after, read, agent, profile, t, now)
  {
    ReadableInsert(before, sig, after, read);
    AbsentSignalContributesNothing(before, sig, after, agent, read, profile);
  }

  lemma ReadableInsert(before: seq<Signal>, sig: Signal, after: seq<Signal>, read: Reader)
    requires read(sig.id).Ok?
    ensures Readable(before + [sig] + after, read) <==> Readable(before + after, read)
  {
    var with, without := before + [sig] + after, before + after;
    assert forall i :: 0 <= i < |before| ==> with[i] == without[i];
    assert forall i :: |before| < i < |with| ==> with[i] == without[i - 1];
    assert forall i :: |before| <= i < |without| ==> without[i] == with[i + 1];
  }

  lemma AbsentSignalContributesNothing(before: seq<Signal>, sig: Signal, after: seq<Signal>, agent: Agent, read: Reader, profile: Profile)
    requires Skipped(sig, Seen(read, sig.id))
    ensures Contributions(before + [sig] + after, agent, read, profile) == Contributions(before + after, agent, read, profile)
  {
    ContributionsConcat(before + [sig], after, agent, read, profile);
    ContributionsConcat(before, [sig], agent, read, profile);
    ContributionsConcat(before, after, agent, read, profile);
    assert [sig][..0] == [] && Contributions([sig], agent, read, profile) == [];
  }

  lemma {:induction false} RisksInsert(a: seq<Contribution>, c: Contribution, b: seq<Contribution>)
    requires c.score.weight <= 0.0
    ensures Risks(a + [c] + b) == Risks(a + b)
  {
    if b == [] {
      assert a + [c] + b == a + [c] && a + b == a && (a + [c])[..|a|] == a;
    } else {
      RisksInsert(a, c, b[..|b| - 1]);
      assert (a + [c] + b)[..|a + [c] + b| - 1] == a + [c] + b[..|b| - 1];
      assert (a + b)[..|a + b| - 1] == a + b[..|b| - 1];
    }
  }

  lemma {:induction false} SignalScoresConcat(a: seq<Contribution>, b: seq<Contribution>, dim: string)
    ensures SignalScores(a + b, dim) == SignalScores(a, dim) + SignalScores(b, dim)
  {
    if b == [] {
      assert a + b == a;
    } else {
      assert (a + b)[..|a + b| - 1] == a + b[..|b| - 1];
      SignalScoresConcat(a, b[..|b| - 1], dim);
    }
  }

  /** The weightless contribution leaves every tally, and the codes, alone. */
  lemma WeightlessContribution(a: seq<Contribution>, c: Contribution, b: seq<Contribution>, agent: string, now: Instant,
                               profile: Profile, t: Thresholds)
    requires c.score.weight <= 0.0
    ensures SameVerdict(Evaluation(a + [c] + b, agent, now, profile, t), Evaluation(a + b, agent, now, profile, t))
  {
    forall d
      ensures TallyOf(a + [c] + b, d) == TallyOf(a + b, d)
    {
      TallyInsert(a, c, b, d);
    }
    SameTalliesSameVerdict(a + [c] + b, a + b, profile, t);
    RisksInsert(a, c, b);
  }

  predicate SameVerdict(e: TrustEvaluation, f: TrustEvaluation) {
    e.vector == f.vector && e.recommended == f.recommended && e.riskFactors == f.riskFactors
  }

  /** In the breakdown it adds its own entry to its own dimension, in its place. */
  lemma WeightlessBreakdown(a: seq<Contribution>, c: Contribution, b: seq<Contribution>, dim: string)
    requires c.score.weight <= 0.0
    ensures DimensionOf(a + b, dim).signals == SignalScores(a, dim) + SignalScores(b, dim)
    ensures DimensionOf(a + [c] + b, dim) == DimensionOf(a + b, dim).(signals :=
      SignalScores(a, dim) + (if c.score.dimension == dim then [c.score] else []) + SignalScores(b, dim))
  {
    TallyInsert(a, c, b, dim);
    SignalScoresConcat(a, b, dim);
    SignalScoresConcat(a + [c], b, dim);
    SignalScoresConcat(a, [c], dim);
    assert [c][..0] == [];
  }

  /** The entry of a signal in the breakdown of a dimension, if it has one. */
  function EntryIn(sig: Signal, agent: Agent, read: Reader, profile: Profile, dim: string): seq<SignalScore> {
    if Skipped(sig, Seen(read, sig.id)) || sig.dimension != dim then []
    else [Contribute(sig, agent, Seen(read, sig.id), profile).score]
  }

  /** The breakdown gains the entry, in its place, and nothing else. */
  predicate GainsEntry(e: DimensionScore, f: DimensionScore, before: seq<SignalScore>, entry: seq<SignalScore>, after: seq<SignalScore>) {
    f.signals == before + after && e == f.(signals := before + entry + after)
  }

  /** A signal without weight still has to be read: there is an evaluation with it
      exactly when there is one without it and its own observation can be read.
      It then shows up in the breakdown of its own dimension and nowhere else: not
      in the vector, the recommendation or the risk factors. */
  lemma WeightlessSignalIsNeutral(before: seq<Signal>, sig: Signal, after: seq<Signal>, agent: Agent, read: Reader,
                                  profile: Profile, t: Thresholds, now: Instant)
    requires WeightIn(profile.signalWeights, sig.id) <= 0.0
    ensures
      var e := Evaluated(before + [sig] + after, read, agent, profile, t, now);
      var f := Evaluated(before + after, read, agent, profile, t, now);
      var a, b := Contributions(before, agent, read, profile), Contributions(after, agent, read, profile);
      && (e.Some? <==> f.Some? && read(sig.id).Ok?)
      && (e.Some? ==>
            && SameVerdict(e.value, f.value)
            && |e.value.dimensions| == |f.value.dimensions| == |ALL_DIMENSIONS|
            && forall i :: 0 <= i < |ALL_DIMENSIONS| ==>
                 var dim := ALL_DIMENSIONS[i];
                 GainsEntry(e.value.dimensions[i], f.value.dimensions[i],
                            SignalScores(a, dim), EntryIn(sig, agent, read, profile, dim), SignalScores(b, dim)))
  {
    ReadableWith(before, sig, after, read);
    WeightlessVerdict(before, sig, after, agent, read, profile, t, now);
    forall i | 0 <= i < |ALL_DIMENSIONS|
      ensures
        var dim := ALL_DIMENSIONS[i];
        var cs := Contributions(before + [sig] + after, agent, read, profile);
        var ds := Contributions(before + after, agent, read, profile);
        GainsEntry(DimensionOf(cs, dim), DimensionOf(ds, dim), SignalScores(Contributions(before, agent, read, profile), dim),
                   EntryIn(sig, agent, read, profile, dim), SignalScores(Contributions(after, agent, read, profile), dim))
    {
      WeightlessEntry(before, sig, after, agent, read, profile, ALL_DIMENSIONS[i]);
    }
  }

  lemma ReadableWith(before: seq<Signal>, sig: Signal, after: seq<Signal>, read: Reader)
    ensures Readable(before + [sig] + after, read) <==> Readable(before + after, read) && read(sig.id).Ok?
  {
    var with := before + [sig] + after;
    assert with[|before|] == sig;
    if read(sig.id).Ok? {
      ReadableInsert(before, sig, after, read);
    }
  }

  lemma WeightlessVerdict(before: seq<Signal>, sig: Signal, after: seq<Signal>, agent: Agent, read: Reader,
                          profile: Profile, t: Thresholds, now: Instant)
    requires WeightIn(profile.signalWeights, sig.id) <= 0.0
    ensures
      var cs := Contributions(before + [sig] + after, agent, read, profile);
      var ds := Contributions(before + after, agent, read, profile);
      SameVerdict(Evaluation(cs, agent.id, now, profile, t), Evaluation(ds, agent.id, now, profile, t))
  {
    if Skipped(sig, Seen(read, sig.id)) {
      AbsentSignalContributesNothing(before, sig, after, agent, read, profile);
    } else {
      OneMoreContribution(before, sig, after, agent, read, profile);
      WeightlessContribution(Contributions(before, agent, read, profile), Contribute(sig, agent, Seen(read, sig.id), profile),
                             Contributions(after, agent, read, profile), agent.id, now, profile, t);
    }
  }

  lemma WeightlessEntry(before: seq<Signal>, sig: Signal, after: seq<Signal>, agent: Agent, read: Reader, profile: Profile, dim: string)
    requires WeightIn(profile.signalWeights, sig.id) <= 0.0
    ensures
      var cs := Contributions(before + [sig] + after, agent, read, profile);
      var ds := Contributions(before + after, agent, read, profile);
      GainsEntry(DimensionOf(cs, dim), DimensionOf(ds, dim), SignalScores(Contributions(before, agent, read, profile), dim),
                 EntryIn(sig, agent, read, profile, dim), SignalScores(Contributions(after, agent, read, profile), dim))
  {
    var a, b := Contributions(before, agent, read, profile), Contributions(after, agent, read, profile);
    if Skipped(sig, Seen(read, sig.id)) {
      AbsentSignalContributesNothing(before, sig, after, agent, read, profile);
      ContributionsConcat(before, after, agent, read, profile);
      SignalScoresConcat(a, b, dim);
      assert SignalScores(a, dim) + [] == SignalScores(a, dim);
    } else {
      OneMoreContribution(before, sig, after, agent, read, profile);
      WeightlessBreakdown(a, Contribute(sig, agent, Seen(read, sig.id), profile), b, dim);
    }
  }

  // ----- an entry of the breakdown

  /** Every signal that takes part has its entry in the breakdown of its dimension. */
  lemma EntryIsListed(signals: seq<Signal>, i: nat, agent: Agent, read: Reader, profile: Profile)
    requires i < |signals| && !Skipped(signals[i], Seen(read, signals[i].id))
    ensures
      var c := Contribute(signals[i], agent, Seen(read, signals[i].id), profile);
      c.score in DimensionOf(Contributions(signals, agent, read, profile), signals[i].dimension).signals
  {
    var before, sig, after := signals[..i], signals[i], signals[i + 1..];
    var a, b := Contributions(before, agent, read, profile), Contributions(after, agent, read, profile);
    var c := Contribute(sig, agent, Seen(read, sig.id), profile);
    assert signals == before + [sig] + after;
    OneMoreContribution(before, sig, after, agent, read, profile);
    SignalScoresConcat(a + [c], b, sig.dimension);
    SignalScoresConcat(a, [c], sig.dimension);
    assert [c][..0] == [];
    assert c.score in SignalScores([c], sig.dimension);
  }

  lemma OneMoreContribution(before: seq<Signal>, sig: Signal, after: seq<Signal>, agent: Agent, read: Reader, profile: Profile)
    requires !Skipped(sig, Seen(read, sig.id))
    ensures
      var a, b := Contributions(before, agent, read, profile), Contributions(after, agent, read, profile);
      && Contributions(before + [sig] + after, agent, read, profile)
           == a + [Contribute(sig, agent, Seen(read, sig.id), profile)] + b
      && Contributions(before + after, agent, read, profile) == a + b
  {
    ContributionsConcat(before + [sig], after, agent, read, profile);
    ContributionsConcat(before, [sig], agent, read, profile);
    ContributionsConcat(before, after, agent, read, profile);
    assert [sig][..0] == [];
  }
}
