/** Endpoint flattening: the feed producer writes protocol and transport sets,
    and the hydrator merges them again with the endpoints. */
module Merge {
  import opened Text
  import F = Feed
  import opened TlEvent

  function NonEmpty(s: seq<string>): seq<string> {
    if s == [] then []
    else
      var x := s[|s| - 1];
      NonEmpty(s[..|s| - 1]) + if x == "" then [] else [x]
  }

  lemma {:induction false} NonEmptyMembers(s: seq<string>)
    ensures forall x :: x in NonEmpty(s) <==> x in s && x != ""
  {
    if s != [] {
      NonEmptyMembers(s[..|s| - 1]);
      assert s == s[..|s| - 1] + [s[|s| - 1]];
    }
  }

  lemma {:induction false} NonEmptyConcat(a: seq<string>, b: seq<string>)
    ensures NonEmpty(a + b) == NonEmpty(a) + NonEmpty(b)
  {
    if b == [] {
      assert a + b == a;
    } else {
      assert (a + b)[..|a + b| - 1] == a + b[..|b| - 1];
      NonEmptyConcat(a, b[..|b| - 1]);
    }
  }

  lemma {:induction false} NonEmptyIdentity(s: seq<string>)
    requires "" !in s
    ensures NonEmpty(s) == s
  {
    if s != [] {
      var front := s[..|s| - 1];
      assert s == front + [s[|s| - 1]];
      NonEmptyIdentity(front);
    }
  }

  function Flat(lists: seq<seq<string>>): seq<string> {
    if lists == [] then [] else Flat(lists[..|lists| - 1]) + lists[|lists| - 1]
  }

  lemma MergeSnoc(before: seq<string>, x: string)
    ensures NonEmpty(before + [x]) == NonEmpty(before) + if x == "" then [] else [x]
    ensures Dedupe(NonEmpty(before + [x])) ==
      if x != "" && x !in NonEmpty(before) then Dedupe(NonEmpty(before)) + [x] else Dedupe(NonEmpty(before))
  {
    assert (before + [x])[..|before|] == before;
    if x != "" {
      DedupeSnoc(NonEmpty(before), x);
    } else {
      assert NonEmpty(before) + [] == NonEmpty(before);
    }
  }

  /** One pass of a "seen map" loop over a further list. */
  method AppendNew(items: seq<string>, out0: seq<string>, seen0: set<string>, ghost before: seq<string>)
    returns (out: seq<string>, seen: set<string>)
    requires out0 == Dedupe(NonEmpty(before)) && forall x :: x in seen0 <==> x in NonEmpty(before)
    ensures out == Dedupe(NonEmpty(before + items)) && forall x :: x in seen <==> x in NonEmpty(before + items)
  {
    out, seen := out0, seen0;
    assert before + items[..0] == before;
    for i := 0 to |items|
      invariant out == Dedupe(NonEmpty(before + items[..i]))
      invariant forall x :: x in seen <==> x in NonEmpty(before + items[..i])
    {
      var x := items[i];
      assert before + items[..i + 1] == before + items[..i] + [x];
      MergeSnoc(before + items[..i], x);
      if x != "" && x !in seen {
        seen := seen + {x};
        out := out + [x];
      }
    }
    assert items[..|items|] == items;
  }

  /** Concatenates the lists, dropping empty and repeated values. */
  method MergeDedupe(lists: seq<seq<string>>) returns (out: seq<string>)
    ensures out == Dedupe(NonEmpty(Flat(lists)))
  {
    var seen: set<string> := {};
    out := [];
    for i := 0 to |lists|
      invariant out == Dedupe(NonEmpty(Flat(lists[..i])))
      invariant forall x :: x in seen <==> x in NonEmpty(Flat(lists[..i]))
    {
      assert lists[..i + 1][..i] == lists[..i];
      out, seen := AppendNew(lists[i], out, seen, Flat(lists[..i]));
    }
    assert lists[..|lists|] == lists;
  }

  // ----- the feed's endpoints

  function ProtocolsIn(eps: seq<F.Endpoint>): seq<string> {
    if eps == [] then [] else ProtocolsIn(eps[..|eps| - 1]) + [eps[|eps| - 1].protocol]
  }

  function TransportsIn(eps: seq<F.Endpoint>): seq<string> {
    if eps == [] then [] else TransportsIn(eps[..|eps| - 1]) + eps[|eps| - 1].transports
  }

  method ProtocolsAndTransports(eps: seq<F.Endpoint>) returns (protocols: seq<string>, transports: seq<string>)
    ensures protocols == Dedupe(NonEmpty(ProtocolsIn(eps)))
    ensures transports == Dedupe(NonEmpty(TransportsIn(eps)))
  {
    var protoSeen: set<string>, transSeen: set<string> := {}, {};
    protocols, transports := [], [];
    for i := 0 to |eps|
      invariant protocols == Dedupe(NonEmpty(ProtocolsIn(eps[..i])))
      invariant transports == Dedupe(NonEmpty(TransportsIn(eps[..i])))
      invariant forall x :: x in protoSeen <==> x in NonEmpty(ProtocolsIn(eps[..i]))
      invariant forall x :: x in transSeen <==> x in NonEmpty(TransportsIn(eps[..i]))
    {
      assert eps[..i + 1][..i] == eps[..i];
      protocols, protoSeen := AppendNew([eps[i].protocol], protocols, protoSeen, ProtocolsIn(eps[..i]));
      transports, transSeen := AppendNew(eps[i].transports, transports, transSeen, TransportsIn(eps[..i]));
    }
    assert eps[..|eps|] == eps;
  }

  /** One fixture endpoint per transport. */
  function Spread(e: F.Endpoint, transports: seq<string>): seq<Endpoint> {
    if transports == [] then []
    else Spread(e, transports[..|transports| - 1]) + [Endpoint(e.protocol, transports[|transports| - 1], e.url)]
  }

  function Projected(e: F.Endpoint): seq<Endpoint> {
    if e.transports != [] then Spread(e, e.transports)
    else if e.protocol == "" && e.url == "" then []
    else [Endpoint(e.protocol, "", e.url)]
  }

  function ProjectedAll(eps: seq<F.Endpoint>): seq<Endpoint> {
    if eps == [] then [] else ProjectedAll(eps[..|eps| - 1]) + Projected(eps[|eps| - 1])
  }

  method ProjectEndpoints(eps: seq<F.Endpoint>) returns (out: seq<Endpoint>)
    ensures out == ProjectedAll(eps)
  {
    out := [];
    for i := 0 to |eps|
      invariant out == ProjectedAll(eps[..i])
    {
      assert eps[..i + 1][..i] == eps[..i];
      var e := eps[i];
      if e.transports == [] {
        if !(e.protocol == "" && e.url == "") {
          out := out + [Endpoint(e.protocol, "", e.url)];
        }
      } else {
        ghost var before := out;
        assert out + Spread(e, e.transports[..0]) == out;
        for j := 0 to |e.transports|
          invariant out == before + Spread(e, e.transports[..j])
        {
          assert e.transports[..j + 1][..j] == e.transports[..j];
          out := out + [Endpoint(e.protocol, e.transports[j], e.url)];
        }
        assert e.transports[..|e.transports|] == e.transports;
      }
    }
    assert eps[..|eps|] == eps;
  }

  // ----- merging twice

  function ProtocolField(eps: seq<Endpoint>): (r: seq<string>)
    ensures |r| == |eps| && forall i :: 0 <= i < |eps| ==> r[i] == eps[i].protocol
  {
    seq(|eps|, i requires 0 <= i < |eps| => eps[i].protocol)
  }

  function TransportField(eps: seq<Endpoint>): (r: seq<string>)
    ensures |r| == |eps| && forall i :: 0 <= i < |eps| ==> r[i] == eps[i].transport
  {
    seq(|eps|, i requires 0 <= i < |eps| => eps[i].transport)
  }

  lemma {:induction false} SpreadFields(e: F.Endpoint, transports: seq<string>)
    ensures forall x :: x in Spread(e, transports) ==> x.protocol == e.protocol && x.transport in transports
  {
    if transports != [] {
      SpreadFields(e, transports[..|transports| - 1]);
      assert transports == transports[..|transports| - 1] + [transports[|transports| - 1]];
    }
  }

  lemma {:induction false} ProjectedFields(eps: seq<F.Endpoint>)
    ensures forall x :: x in ProjectedAll(eps) ==>
      x.protocol in ProtocolsIn(eps) && (x.transport == "" || x.transport in TransportsIn(eps))
  {
    if eps != [] {
      var e := eps[|eps| - 1];
      ProjectedFields(eps[..|eps| - 1]);
      SpreadFields(e, e.transports);
    }
  }

  lemma MergeAgain(listed: seq<string>, more: seq<string>)
    requires forall x :: x in more && x != "" ==> x in listed
    ensures Dedupe(NonEmpty(Flat([] + [Dedupe(NonEmpty(listed))] + [more]))) == Dedupe(NonEmpty(listed))
  {
    var d := Dedupe(NonEmpty(listed));
    var lists := [] + [d] + [more];
    assert lists[..1] == [d] && [d][..0] == [];
    assert Flat([d]) == [] + d == d;
    assert Flat(lists) == d + more;
    DedupeMembers(NonEmpty(listed));
    NonEmptyMembers(listed);
    NonEmptyMembers(more);
    NonEmptyConcat(d, more);
    NonEmptyIdentity(d);
    DedupeAbsorbs(d, NonEmpty(more));
    DedupeOfDistinct(d);
  }

  /** Hydrating a written fixture recovers its own protocol and transport sets:
      merging in the endpoints adds nothing and reorders nothing. */
  lemma RemergeAddsNothing(eps: seq<F.Endpoint>)
    ensures
      var protocols, transports := Dedupe(NonEmpty(ProtocolsIn(eps))), Dedupe(NonEmpty(TransportsIn(eps)));
      && Dedupe(NonEmpty(Flat([] + [protocols] + [ProtocolField(ProjectedAll(eps))]))) == protocols
      && Dedupe(NonEmpty(Flat([] + [transports] + [TransportField(ProjectedAll(eps))]))) == transports
  {
    ProjectedFields(eps);
    var out := ProjectedAll(eps);
    forall x | x in ProtocolField(out)
      ensures x in ProtocolsIn(eps)
    {
      var i :| 0 <= i < |out| && ProtocolField(out)[i] == x;
      assert out[i] in out;
    }
    forall x | x in TransportField(out) && x != ""
      ensures x in TransportsIn(eps)
    {
      var i :| 0 <= i < |out| && TransportField(out)[i] == x;
      assert out[i] in out;
    }
    MergeAgain(ProtocolsIn(eps), ProtocolField(out));
    MergeAgain(TransportsIn(eps), TransportField(out));
  }
}
