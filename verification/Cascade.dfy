/** Thresholds.Classify: an ordered first-match cascade over the active
    dimensions, held in Go maps that are ranged over in no particular order. */
module Cascade {
  import opened Domain

  datatype Recommendation = Untrusted | ReadOnly | Transactional | Fiduciary

  datatype Thresholds = Thresholds(untrusted: int, transactional: int, fiduciary: int, identityFiduciary: int)

  /** What the configuration loader accepts. */
  predicate Ascending(t: Thresholds) {
    0 < t.untrusted < t.transactional < t.fiduciary < t.identityFiduciary <= 100
  }

  function At(scores: map<string, int>, dim: string): int {
    if dim in scores then scores[dim] else 0
  }

  predicate On(active: map<string, bool>, dim: string) {
    dim in active && active[dim]
  }

  predicate AnyActive(active: map<string, bool>) {
    exists d :: d in active && active[d]
  }

  predicate AnyBelow(scores: map<string, int>, active: map<string, bool>, bar: int) {
    exists d :: d in active && active[d] && At(scores, d) < bar
  }

  predicate AllActiveAtLeast(scores: map<string, int>, active: map<string, bool>, bar: int) {
    !AnyBelow(scores, active, bar)
  }

  function Classify(t: Thresholds, scores: map<string, int>, active: map<string, bool>): Recommendation {
    if !AnyActive(active) then ReadOnly
    else if AnyBelow(scores, active, t.untrusted) then Untrusted
    else if AllActiveAtLeast(scores, active, t.fiduciary)
         && On(active, IDENTITY) && At(scores, IDENTITY) >= t.identityFiduciary then Fiduciary
    else if AllActiveAtLeast(scores, active, t.transactional) then Transactional
    else ReadOnly
  }

  // ----- independence of the iteration order

  /** A range loop over the map that returns on the first hit, visiting the keys
      in the given order. */
  predicate RangeFindsBelow(order: seq<string>, scores: map<string, int>, active: map<string, bool>, bar: int) {
    order != [] &&
    ((On(active, order[0]) && At(scores, order[0]) < bar) || RangeFindsBelow(order[1..], scores, active, bar))
  }

  predicate RangeFindsActive(order: seq<string>, active: map<string, bool>) {
    order != [] && (On(active, order[0]) || RangeFindsActive(order[1..], active))
  }

  /** Classify as executed: four range loops, each in an order of its own. */
  function ClassifyRanging(t: Thresholds, scores: map<string, int>, active: map<string, bool>,
                           o1: seq<string>, o2: seq<string>, o3: seq<string>, o4: seq<string>): Recommendation {
    if !RangeFindsActive(o1, active) then ReadOnly
    else if RangeFindsBelow(o2, scores, active, t.untrusted) then Untrusted
    else if !RangeFindsBelow(o3, scores, active, t.fiduciary)
         && On(active, IDENTITY) && At(scores, IDENTITY) >= t.identityFiduciary then Fiduciary
    else if !RangeFindsBelow(o4, scores, active, t.transactional) then Transactional
    else ReadOnly
  }

  ghost predicate Enumerates(order: seq<string>, active: map<string, bool>) {
    forall d :: d in order <==> d in active
  }

  lemma {:induction false} RangeFindsBelowAnywhere(order: seq<string>, scores: map<string, int>, active: map<string, bool>, bar: int)
    ensures RangeFindsBelow(order, scores, active, bar) <==> exists d :: d in order && On(active, d) && At(scores, d) < bar
  {
    if order != [] {
      RangeFindsBelowAnywhere(order[1..], scores, active, bar);
      assert order == [order[0]] + order[1..];
    }
  }

  lemma {:induction false} RangeFindsActiveAnywhere(order: seq<string>, active: map<string, bool>)
    ensures RangeFindsActive(order, active) <==> exists d :: d in order && On(active, d)
  {
    if order != [] {
      RangeFindsActiveAnywhere(order[1..], active);
      assert order == [order[0]] + order[1..];
    }
  }

  /** Whatever orders the runtime picks, the cascade gives the same answer. */
  lemma IterationOrderIsIrrelevant(t: Thresholds, scores: map<string, int>, active: map<string, bool>,
                                   o1: seq<string>, o2: seq<string>, o3: seq<string>, o4: seq<string>)
    requires Enumerates(o1, active) && Enumerates(o2, active) && Enumerates(o3, active) && Enumerates(o4, active)
    ensures ClassifyRanging(t, scores, active, o1, o2, o3, o4) == Classify(t, scores, active)
  {
    RangeFindsActiveAnywhere(o1, active);
    RangeFindsBelowAnywhere(o2, scores, active, t.untrusted);
    RangeFindsBelowAnywhere(o3, scores, active, t.fiduciary);
    RangeFindsBelowAnywhere(o4, scores, active, t.transactional);
  }

  // ----- monotonicity

  function Rank(r: Recommendation): nat {
    match r
    case Untrusted => 0
    case ReadOnly => 1
    case Transactional => 2
    case Fiduciary => 3
  }

  /** Every active dimension scores at least the bar; a missing score is 0. */
  predicate AllOver(scores: map<string, int>, active: map<string, bool>, bar: int) {
    forall d :: d in active && active[d] ==> (if d in scores then scores[d] else 0) >= bar
  }

  /** With ascending thresholds each recommendation has one exact bar, and the
      order in which the cascade tries them does not matter. */
  lemma BarsAreExact(t: Thresholds, scores: map<string, int>, active: map<string, bool>)
    requires Ascending(t)
    ensures
      var rank := Rank(Classify(t, scores, active));
      && (rank >= 1 <==> AllOver(scores, active, t.untrusted))
      && (rank >= 2 <==> AllOver(scores, active, t.transactional) && exists d :: d in active && active[d])
      && (rank >= 3 <==> && AllOver(scores, active, t.fiduciary) && "identity" in active && active["identity"]
                         && (if "identity" in scores then scores["identity"] else 0) >= t.identityFiduciary)
  {
    forall bar, higher | bar <= higher && AnyBelow(scores, active, bar)
      ensures AnyBelow(scores, active, higher)
    {
      var d :| d in active && active[d] && At(scores, d) < bar;
    }
  }

  lemma RaisingScoresNeverDemotes(t: Thresholds, scores: map<string, int>, raised: map<string, int>, active: map<string, bool>)
    requires forall d :: At(scores, d) <= At(raised, d)
    ensures Rank(Classify(t, scores, active)) <= Rank(Classify(t, raised, active))
  {
    forall bar | AnyBelow(raised, active, bar)
      ensures AnyBelow(scores, active, bar)
    {
      var d :| d in active && active[d] && At(raised, d) < bar;
      assert At(scores, d) < bar;
    }
  }
}
