/** The signal registry: unique non-empty ids, in registration order. */
module Registry {
  import opened Text
  import opened Signals

  predicate DistinctIds(signals: seq<Signal>) {
    forall i, j :: 0 <= i < j < |signals| ==> signals[i].id != signals[j].id
  }

  class Registry {
    var signals: map<string, Signal>
    var order: seq<string>

    ghost predicate Valid()
      reads this
    {
      && Distinct(order)
      && (forall id :: id in signals <==> id in order)
      && (forall id :: id in signals ==> signals[id].id == id && id != "")
    }

    constructor ()
      ensures Valid() && All() == []
    {
      signals, order := map[], [];
    }

    /** Refuses an empty or a taken id; otherwise the signal comes last. */
    method Register(s: Signal) returns (ok: bool)
      requires Valid()
      modifies this
      ensures Valid()
      ensures ok <==> s.id != "" && forall i :: 0 <= i < |old(All())| ==> old(All())[i].id != s.id
      ensures All() == if ok then old(All()) + [s] else old(All())
    {
      var before := All();
      assert forall i :: 0 <= i < |order| ==> before[i].id == order[i];
      ok := s.id != "" && s.id !in signals;
      if ok {
        signals := signals[s.id := s];
        order := order + [s.id];
      } else if s.id != "" {
        var i :| 0 <= i < |order| && order[i] == s.id;
        assert before[i].id == s.id;
      }
    }

    function Get(id: string): (s: Option<Signal>)
      requires Valid()
      reads this
      ensures s.Some? <==> exists i :: 0 <= i < |All()| && All()[i].id == id
      ensures forall i :: 0 <= i < |All()| && All()[i].id == id ==> s == Some(All()[i])
    {
      assert forall i :: 0 <= i < |order| ==> All()[i].id == order[i];
      if id in signals then
        assert exists i :: 0 <= i < |order| && order[i] == id;
        Some(signals[id])
      else None
    }

    function All(): (r: seq<Signal>)
      requires Valid()
      reads this
      ensures |r| == |order| && DistinctIds(r)
    {
      assert forall i :: 0 <= i < |order| ==> order[i] in signals;
      seq(|order|, i requires 0 <= i < |order| && order[i] in signals reads this => signals[order[i]])
    }
  }
}
