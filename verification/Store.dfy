/** sqlitestore.DB: the tables as mutable state, changed by transactions. */
module Store {
  import opened Text
  import opened TimeText
  import opened Domain
  import opened Tables
  import opened History

  class DB {
    var agents: seq<Agent>
    var fts: seq<FtsRow>
    var rows: seq<Row>
    var lastId: nat

    /** Every call made so far. */
    ghost var calls: seq<Step>

    ghost function Content(): Db
      reads this
    {
      Db(agents, fts, rows, lastId)
    }

    ghost predicate Valid()
      reads this
    {
      Content() == Run(EMPTY, calls)
    }

    constructor ()
      ensures Valid() && calls == [] && Content() == EMPTY
    {
      agents, fts, rows, lastId := [], [], [], 0;
      calls := [];
    }

    /** One row of an agent batch, in place. */
    method UpsertAgentTx(a: Agent) returns (ok: bool)
      modifies this`agents, this`fts
      ensures ok == UpsertAgent(old(Content()), a).Some?
      ensures Content() == if ok then UpsertAgent(old(Content()), a).value else old(Content())
    {
      ok := ValidStatus(a.status);
      if ok {
        var i := FindAgent(agents, a.id);
        if i < |agents| {
          agents := agents[i := Stored(a)];
          fts := Resync(fts, Indexed(a));
        } else {
          agents := agents + [Stored(a)];
          fts := fts + [Indexed(a)];
        }
      }
    }

    /** One row of an observation batch, given as its bound parameters, in place. */
    method AppendObservationTx(e: Evidence) returns (ok: bool)
      modifies this`rows, this`lastId
      ensures ok == AppendObservation(old(Content()), e).Some?
      ensures Content() == if ok then AppendObservation(old(Content()), e).value else old(Content())
    {
      ok := Recorded(rows, e) || Known(agents, e.agent);
      if !Recorded(rows, e) && Known(agents, e.agent) {
        lastId := lastId + 1;
        rows := rows + [Row(lastId, e.agent, e.signal, e.observedAt, e.value, e.provenance)];
      }
    }

    /** All of the batch or none of it; the observations are never touched, and
        the search index keeps exactly one current row per agent. */
    method UpsertAgents(batch: seq<Agent>, works: bool) returns (ok: bool)
      requires Valid()
      modifies this
      ensures Valid() && calls == old(calls) + [Upsert(batch, works)]
      ensures Content() == Apply(old(Content()), Upsert(batch, works))
      ensures ok <==> batch == [] || Commits(old(Content()), Upsert(batch, works))
      ensures !ok ==> Content() == old(Content())
      ensures rows == old(rows) && Mirrored(Content())
    {
      ghost var before := Content();
      var agents0, fts0 := agents, fts;
      ok := true;
      var i := 0;
      while i < |batch| && ok
        invariant 0 <= i <= |batch|
        invariant ok ==> UpsertAll(before, batch[..i]) == Some(Content())
        invariant !ok ==> UpsertAll(before, batch).None?
        invariant rows == before.rows && lastId == before.lastId && calls == old(calls)
      {
        ok := UpsertAgentTx(batch[i]);
        assert batch[..i + 1][..i] == batch[..i];
        if !ok {
          RefusedPrefix(before, batch, i + 1);
        }
        i := i + 1;
      }
      assert ok ==> batch[..i] == batch;
      if !ok || !works {
        agents, fts := agents0, fts0;
      }
      ok := batch == [] || (ok && works);
      RunSnoc(EMPTY, calls, Upsert(batch, works));
      calls := calls + [Upsert(batch, works)];
      RunConsistent(calls);
    }

    /** The transaction around a batch of bound rows. */
    method AppendTx(batch: seq<Evidence>, works: bool) returns (ok: bool)
      modifies this`rows, this`lastId
      ensures ok <==> works && AppendAll(old(Content()), batch).Some?
      ensures Content() == if ok then AppendAll(old(Content()), batch).value else old(Content())
    {
      ghost var before := Content();
      var rows0, lastId0 := rows, lastId;
      ok := true;
      var i := 0;
      while i < |batch| && ok
        invariant 0 <= i <= |batch|
        invariant ok ==> AppendAll(before, batch[..i]) == Some(Content())
        invariant !ok ==> AppendAll(before, batch).None?
      {
        ok := AppendObservationTx(batch[i]);
        assert batch[..i + 1][..i] == batch[..i];
        if !ok {
          RefusedObservation(before, batch, i + 1);
        }
        i := i + 1;
      }
      assert ok ==> batch[..i] == batch;
      if !ok || !works {
        rows, lastId := rows0, lastId0;
      }
      ok := ok && works;
    }

    method AppendObservations(batch: seq<Observation>, works: bool) returns (ok: bool)
      requires Valid()
      modifies this
      ensures Valid() && calls == old(calls) + [Append(batch, works)]
      ensures Content() == Apply(old(Content()), Append(batch, works))
      ensures ok <==> batch == [] || Commits(old(Content()), Append(batch, works))
      ensures !ok ==> Content() == old(Content())
      ensures agents == old(agents) && WellKeyed(rows) && AllKnown(Content())
    {
      ok := AppendTx(StampAll(batch), works);
      ok := ok || batch == [];
      RunSnoc(EMPTY, calls, Append(batch, works));
      calls := calls + [Append(batch, works)];
      RunConsistent(calls);
    }

    /** Trims each pair to its newest rows; no reader can tell. */
    method PruneObservations(keep: int, works: bool) returns (ok: bool, deleted: nat)
      requires Valid()
      modifies this
      ensures Valid() && calls == old(calls) + [Prune(keep, works)]
      ensures Content() == Apply(old(Content()), Prune(keep, works))
      ensures ok <==> works || keep <= 0
      ensures deleted == |old(rows)| - |rows| && agents == old(agents) && fts == old(fts)
      ensures forall agent, signal :: Tables.LatestObservation(Content(), agent, signal)
                                   == Tables.LatestObservation(old(Content()), agent, signal)
    {
      ok, deleted := true, 0;
      RunConsistent(calls);
      forall agent, signal
        ensures Latest(Tables.PruneObservations(Content(), keep).rows, agent, signal) == Latest(rows, agent, signal)
      {
        PruneKeepsLatest(Content(), keep, agent, signal);
      }
      if keep > 0 {
        if works {
          var kept := Retained(rows, rows, keep);
          RetainedIsShorter(rows, rows, keep);
          deleted := |rows| - |kept|;
          rows := kept;
        } else {
          ok := false;
        }
      }
      RunSnoc(EMPTY, calls, Prune(keep, works));
      calls := calls + [Prune(keep, works)];
    }

    /** The first write at the newest second among all committed batches, as far as
        the years allow; a read that fails is answered with the failure. */
    method LatestObservation(agent: string, signal: string) returns (seen: Result<Option<Observation>>)
      requires Valid()
      ensures seen == Tables.LatestObservation(Content(), agent, signal)
      ensures ReachableTimes(Committed(EMPTY, calls)) ==>
        var log := Committed(EMPTY, calls);
        && (ReadsNewestSecond(seen, log, agent, signal) <==> Sound(log, agent, signal))
        && (seen.Err? <==> !Sound(log, agent, signal) && !Has(log, agent, signal, From1001))
    {
      var newest := NewestEvidence(Db(agents, fts, rows, lastId), agent, signal);
      if newest.None? {
        seen := Ok(None);
      } else {
        var second := ParseTime(newest.value.observedAt);
        if second.None? {
          seen := Err(UNREADABLE_TIME);
        } else {
          var e := newest.value;
          seen := Ok(Some(Observation(e.agent, e.signal, second.value * NANOS_PER_SECOND, e.value, e.provenance)));
        }
      }
      if ReachableTimes(Committed(EMPTY, calls)) {
        LatestIsRightExactly(calls, agent, signal);
      }
    }

    /** The record last committed for the id, if its times can be read. */
    method GetAgent(id: string) returns (a: Result<Option<Agent>>)
      requires Valid()
      ensures a == Tables.GetAgent(agents, id)
      ensures a == AgentRead(CommittedAgents(EMPTY, calls), id)
    {
      var i := FindAgent(agents, id);
      if i == |agents| {
        a := Ok(None);
      } else {
        var read := ScanAgent(agents[i]);
        a := if read.Ok? then Ok(Some(read.value)) else Err(read.error);
      }
      GetAgentReadsLastImport(calls, id);
    }
  }

  /** A batch one of whose prefixes is refused is refused. */
  lemma {:induction false} RefusedPrefix(db: Db, batch: seq<Agent>, n: nat)
    requires n <= |batch| && UpsertAll(db, batch[..n]).None?
    ensures UpsertAll(db, batch).None?
    decreases |batch| - n
  {
    if n == |batch| {
      assert batch[..n] == batch;
    } else {
      assert batch[..n + 1][..n] == batch[..n];
      RefusedPrefix(db, batch, n + 1);
    }
  }

  lemma {:induction false} RefusedObservation(db: Db, batch: seq<Evidence>, n: nat)
    requires n <= |batch| && AppendAll(db, batch[..n]).None?
    ensures AppendAll(db, batch).None?
    decreases |batch| - n
  {
    if n == |batch| {
      assert batch[..n] == batch;
    } else {
      assert batch[..n + 1][..n] == batch[..n];
      RefusedObservation(db, batch, n + 1);
    }
  }

  lemma {:induction false} RetainedIsShorter(rows: seq<Row>, scan: seq<Row>, keep: int)
    ensures |Retained(rows, scan, keep)| <= |scan|
  {
    if scan != [] {
      RetainedIsShorter(rows, scan[..|scan| - 1], keep);
    }
  }
}
