/** What readers of the store can rely on over every run. */
module History {
  import opened Text
  import opened TimeText
  import opened Domain
  import opened Tables

  // ----- the table's own invariant

  /** The unique index: no two rows share agent, signal and time. */
  predicate WellKeyed(rows: seq<Row>) {
    forall i, j :: 0 <= i < j < |rows| ==> !SameKey(rows[i], rows[j])
  }

  predicate AllKnown(db: Db) {
    forall i :: 0 <= i < |db.rows| ==> Known(db.agents, db.rows[i].agent)
  }

  /** Strictly later than every other row of its pair: no tie for obs_id to break. */
  ghost predicate IsNewest(rows: seq<Row>, agent: string, signal: string, r: Row) {
    && r in rows && OfPair(r, agent, signal)
    && forall q :: q in rows && OfPair(q, agent, signal) && q != r ==> Less(q.observedAt, r.observedAt)
  }

  lemma {:induction false} LatestIsNewest(rows: seq<Row>, agent: string, signal: string)
    requires WellKeyed(rows)
    ensures Latest(rows, agent, signal).None? ==> forall q :: q in rows ==> !OfPair(q, agent, signal)
    ensures Latest(rows, agent, signal).Some? ==> IsNewest(rows, agent, signal, Latest(rows, agent, signal).value)
  {
    if rows != [] {
      var front, r := rows[..|rows| - 1], rows[|rows| - 1];
      LatestIsNewest(front, agent, signal);
      var best := Latest(front, agent, signal);
      assert rows == front + [r];
      if OfPair(r, agent, signal) && best.Some? {
        var i :| 0 <= i < |front| && front[i] == best.value;
        assert !SameKey(rows[i], rows[|rows| - 1]);
        LessTotal(r.observedAt, best.value.observedAt);
        if Newer(r, best.value) {
          forall q | q in rows && OfPair(q, agent, signal) && q != r
            ensures Less(q.observedAt, r.observedAt)
          {
            if q != best.value {
              LessTransitive(q.observedAt, best.value.observedAt, r.observedAt);
            }
          }
        }
      }
    }
  }

  lemma NewestIsUnique(rows: seq<Row>, agent: string, signal: string, r: Row)
    requires WellKeyed(rows) && IsNewest(rows, agent, signal, r)
    ensures Latest(rows, agent, signal) == Some(r)
  {
    LatestIsNewest(rows, agent, signal);
    var best := Latest(rows, agent, signal).value;
    if best != r {
      LessAsymmetric(r.observedAt, best.observedAt);
    }
  }

  // ----- pruning

  lemma {:induction false} RetainedRows(rows: seq<Row>, scan: seq<Row>, keep: int)
    ensures forall r :: r in Retained(rows, scan, keep) <==> r in scan && RowNumber(rows, r) <= keep
    ensures WellKeyed(scan) ==> WellKeyed(Retained(rows, scan, keep))
  {
    if scan != [] {
      var front, r := scan[..|scan| - 1], scan[|scan| - 1];
      RetainedRows(rows, front, keep);
      assert scan == front + [r];
      if WellKeyed(scan) {
        var kept := Retained(rows, front, keep);
        forall i | 0 <= i < |kept|
          ensures !SameKey(kept[i], r)
        {
          assert kept[i] in front;
          var j :| 0 <= j < |front| && front[j] == kept[i];
          assert !SameKey(scan[j], scan[|scan| - 1]);
        }
      }
    }
  }

  lemma {:induction false} NothingNewer(rows: seq<Row>, r: Row)
    ensures NewerThan(rows, r) == 0 <==> forall q :: q in rows && OfPair(q, r.agent, r.signal) ==> !Newer(q, r)
  {
    if rows != [] {
      NothingNewer(rows[..|rows| - 1], r);
      assert rows == rows[..|rows| - 1] + [rows[|rows| - 1]];
    }
  }

  /** The row a reader would see survives every retention depth. */
  lemma PruneKeepsLatest(db: Db, keep: int, agent: string, signal: string)
    requires WellKeyed(db.rows)
    ensures WellKeyed(PruneObservations(db, keep).rows)
    ensures Latest(PruneObservations(db, keep).rows, agent, signal) == Latest(db.rows, agent, signal)
  {
    if keep > 0 {
      var kept := Retained(db.rows, db.rows, keep);
      RetainedRows(db.rows, db.rows, keep);
      LatestIsNewest(db.rows, agent, signal);
      match Latest(db.rows, agent, signal) {
        case None =>
          LatestIsNewest(kept, agent, signal);
        case Some(r) =>
          forall q | q in db.rows && OfPair(q, agent, signal)
            ensures !Newer(q, r)
          {
            LessIrreflexive(r.observedAt);
            if q != r {
              LessAsymmetric(q.observedAt, r.observedAt);
            }
          }
          NothingNewer(db.rows, r);
          NewestIsUnique(kept, agent, signal, r);
      }
    }
  }

  // ----- the reader's view of a log

  predicate About(o: Evidence, agent: string, signal: string) {
    o.agent == agent && o.signal == signal
  }

  /** Entry i is for the pair, no entry for the pair prints a later time, and no
      earlier entry for the pair prints the same time. */
  predicate FirstAtLatestText(log: seq<Evidence>, agent: string, signal: string, i: int) {
    && 0 <= i < |log| && About(log[i], agent, signal)
    && (forall j :: 0 <= j < |log| && About(log[j], agent, signal) ==>
          !Less(log[i].observedAt, log[j].observedAt))
    && (forall j :: 0 <= j < i && About(log[j], agent, signal) ==>
          log[j].observedAt != log[i].observedAt)
  }

  /** A reader's answer is right for a log: silent when the log is, and the first
      write at the latest time otherwise. */
  ghost predicate Answers(seen: Option<Evidence>, log: seq<Evidence>, agent: string, signal: string) {
    match seen
    case None => forall i :: 0 <= i < |log| ==> !About(log[i], agent, signal)
    case Some(e) => exists i :: FirstAtLatestText(log, agent, signal, i) && e == log[i]
  }

  lemma AnswersAreUnique(x: Option<Evidence>, y: Option<Evidence>, log: seq<Evidence>, agent: string, signal: string)
    requires Answers(x, log, agent, signal) && Answers(y, log, agent, signal)
    ensures x == y
  {
    if x.Some? && y.Some? {
      var i :| FirstAtLatestText(log, agent, signal, i) && x.value == log[i];
      var j :| FirstAtLatestText(log, agent, signal, j) && y.value == log[j];
      LessTotal(log[i].observedAt, log[j].observedAt);
    }
  }

  /** How a right answer changes when the log grows by one entry. */
  lemma AnswerGrows(seen: Option<Evidence>, log: seq<Evidence>, o: Evidence, agent: string, signal: string)
    requires Answers(seen, log, agent, signal)
    ensures Answers(
      if About(o, agent, signal) && (seen.None? || Less(seen.value.observedAt, o.observedAt)) then Some(o) else seen,
      log + [o], agent, signal)
  {
    var grown := log + [o];
    if About(o, agent, signal) && (seen.None? || Less(seen.value.observedAt, o.observedAt)) {
      forall j | 0 <= j < |log| && About(log[j], agent, signal)
        ensures Less(log[j].observedAt, o.observedAt)
      {
        var i :| FirstAtLatestText(log, agent, signal, i) && seen.value == log[i];
        LessTotal(log[i].observedAt, log[j].observedAt);
        if Less(log[j].observedAt, log[i].observedAt) {
          LessTransitive(log[j].observedAt, log[i].observedAt, o.observedAt);
        }
      }
      forall j | 0 <= j < |grown| && About(grown[j], agent, signal)
        ensures !Less(o.observedAt, grown[j].observedAt)
        ensures j < |log| ==> grown[j].observedAt != o.observedAt
      {
        LessIrreflexive(o.observedAt);
        if j < |log| {
          LessAsymmetric(log[j].observedAt, o.observedAt);
        }
      }
      assert FirstAtLatestText(grown, agent, signal, |log|);
    } else if seen.Some? {
      var i :| FirstAtLatestText(log, agent, signal, i) && seen.value == log[i];
      assert FirstAtLatestText(grown, agent, signal, i);
    }
  }

  // ----- one step keeps the invariant

  ghost predicate Consistent(db: Db, log: seq<Evidence>) {
    && WellKeyed(db.rows)
    && AllKnown(db)
    && forall agent, signal :: Answers(NewestEvidence(db, agent, signal), log, agent, signal)
  }

  /** An ignored insert is for a time its pair already holds. */
  lemma IgnoredIsNoLater(rows: seq<Row>, o: Evidence)
    requires WellKeyed(rows) && Recorded(rows, o)
    ensures Latest(rows, o.agent, o.signal).Some?
    ensures !Less(Latest(rows, o.agent, o.signal).value.observedAt, o.observedAt)
  {
    var i :| 0 <= i < |rows| && OfPair(rows[i], o.agent, o.signal) && rows[i].observedAt == o.observedAt;
    assert rows[i] in rows;
    NoLaterThanLatest(rows, o.agent, o.signal, rows[i]);
  }

  /** An accepted row becomes its pair's newest exactly when its time is later. */
  lemma AcceptedMovesLatest(rows: seq<Row>, r: Row, agent: string, signal: string)
    requires WellKeyed(rows) && forall i :: 0 <= i < |rows| ==> !SameKey(rows[i], r)
    ensures
      var seen := Latest(rows, agent, signal);
      Latest(rows + [r], agent, signal) ==
        if OfPair(r, agent, signal) && (seen.None? || Less(seen.value.observedAt, r.observedAt)) then Some(r) else seen
  {
    assert (rows + [r])[..|rows|] == rows;
    LatestIsNewest(rows, agent, signal);
    var seen := Latest(rows, agent, signal);
    if OfPair(r, agent, signal) && seen.Some? {
      var i :| 0 <= i < |rows| && rows[i] == seen.value;
      assert !SameKey(rows[i], r);
    }
  }

  /** One insert, accepted or ignored, moves each pair's answer as the log says. */
  lemma AppendOneKeeps(db: Db, log: seq<Evidence>, o: Evidence)
    requires Consistent(db, log) && AppendObservation(db, o).Some?
    ensures Consistent(AppendObservation(db, o).value, log + [o])
  {
    var next := AppendObservation(db, o).value;
    forall agent, signal
      ensures Answers(NewestEvidence(next, agent, signal), log + [o], agent, signal)
    {
      var seen := NewestEvidence(db, agent, signal);
      AnswerGrows(seen, log, o, agent, signal);
      if Recorded(db.rows, o) {
        IgnoredIsNoLater(db.rows, o);
      } else {
        AcceptedMovesLatest(db.rows, next.rows[|db.rows|], agent, signal);
      }
    }
  }

  lemma NoLaterThanLatest(rows: seq<Row>, agent: string, signal: string, r: Row)
    requires WellKeyed(rows) && r in rows && OfPair(r, agent, signal)
    ensures Latest(rows, agent, signal).Some?
    ensures !Less(Latest(rows, agent, signal).value.observedAt, r.observedAt)
  {
    LatestIsNewest(rows, agent, signal);
    var best := Latest(rows, agent, signal).value;
    LessIrreflexive(r.observedAt);
    if r != best {
      LessAsymmetric(r.observedAt, best.observedAt);
    }
  }

  lemma {:induction false} AppendAllKeeps(db: Db, log: seq<Evidence>, batch: seq<Evidence>)
    requires Consistent(db, log) && AppendAll(db, batch).Some?
    ensures Consistent(AppendAll(db, batch).value, log + batch)
    ensures AppendAll(db, batch).value.agents == db.agents
  {
    if batch == [] {
      assert log + batch == log;
    } else {
      var front, o := batch[..|batch| - 1], batch[|batch| - 1];
      AppendAllKeeps(db, log, front);
      AppendOneKeeps(AppendAll(db, front).value, log + front, o);
      assert log + batch == log + front + [o];
    }
  }

  // ----- agents and their search index

  predicate DistinctIds(agents: seq<Agent>) {
    forall i, j :: 0 <= i < j < |agents| ==> agents[i].id != agents[j].id
  }

  /** agents_fts holds exactly one row per agent, with its current fields. */
  predicate Mirrored(db: Db) {
    && DistinctIds(db.agents)
    && |db.fts| == |db.agents|
    && forall i :: 0 <= i < |db.agents| ==> db.fts[i] == Indexed(db.agents[i])
  }

  lemma UpsertOneKeeps(db: Db, a: Agent)
    requires UpsertAgent(db, a).Some?
    ensures Mirrored(db) ==> Mirrored(UpsertAgent(db, a).value)
    ensures forall id :: Known(db.agents, id) ==> Known(UpsertAgent(db, a).value.agents, id)
    ensures UpsertAgent(db, a).value.rows == db.rows
  {
    var next := UpsertAgent(db, a).value;
    forall id | Known(db.agents, id)
      ensures Known(next.agents, id)
    {
      var i := FindAgent(db.agents, id);
      assert next.agents[i].id == id;
    }
  }

  lemma {:induction false} UpsertAllKeeps(db: Db, batch: seq<Agent>)
    requires UpsertAll(db, batch).Some?
    ensures Mirrored(db) ==> Mirrored(UpsertAll(db, batch).value)
    ensures forall id :: Known(db.agents, id) ==> Known(UpsertAll(db, batch).value.agents, id)
    ensures UpsertAll(db, batch).value.rows == db.rows
  {
    if batch != [] {
      UpsertAllKeeps(db, batch[..|batch| - 1]);
      UpsertOneKeeps(UpsertAll(db, batch[..|batch| - 1]).value, batch[|batch| - 1]);
    }
  }

  /** The last entry of a batch or log for an id. */
  function LastNamed(log: seq<Agent>, id: string): Option<Agent> {
    if log == [] then None
    else if log[|log| - 1].id == id then Some(log[|log| - 1])
    else LastNamed(log[..|log| - 1], id)
  }

  /** What is stored for an id after a batch or log on top of what was stored. */
  function Overlaid(before: Option<Agent>, log: seq<Agent>, id: string): Option<Agent> {
    match LastNamed(log, id)
    case Some(a) => Some(Stored(a))
    case None => before
  }

  lemma UpsertReplacesOne(db: Db, a: Agent, id: string)
    requires UpsertAgent(db, a).Some?
    ensures AgentNamed(UpsertAgent(db, a).value.agents, id) == if a.id == id then Some(Stored(a)) else AgentNamed(db.agents, id)
  {
    var next := UpsertAgent(db, a).value.agents;
    var i, j := FindAgent(db.agents, id), FindAgent(next, id);
    assert forall k :: 0 <= k < |db.agents| ==> next[k].id == db.agents[k].id;
    if i < |db.agents| {
      assert j == i;
    } else if a.id == id {
      assert next == db.agents + [Stored(a)] && next[|db.agents|].id == id;
      assert j == |db.agents|;
    }
  }

  /** A committed batch stores the last entry for each id it names, and leaves all
      other agents alone. */
  lemma {:induction false} UpsertReplaces(db: Db, batch: seq<Agent>, id: string)
    requires UpsertAll(db, batch).Some?
    ensures AgentNamed(UpsertAll(db, batch).value.agents, id) == Overlaid(AgentNamed(db.agents, id), batch, id)
  {
    if batch != [] {
      var front, a := batch[..|batch| - 1], batch[|batch| - 1];
      UpsertReplaces(db, front, id);
      UpsertReplacesOne(UpsertAll(db, front).value, a, id);
    }
  }

  lemma {:induction false} LastNamedConcat(a: seq<Agent>, b: seq<Agent>, id: string)
    ensures LastNamed(a + b, id) == if LastNamed(b, id).Some? then LastNamed(b, id) else LastNamed(a, id)
  {
    if b == [] {
      assert a + b == a;
    } else {
      assert (a + b)[..|a + b| - 1] == a + b[..|b| - 1];
      LastNamedConcat(a, b[..|b| - 1], id);
    }
  }

  /** Over whole runs agents follow the opposite rule to observations: the record
      is the last one committed for the id. */
  lemma {:induction false} AgentIsLastImport(steps: seq<Step>, id: string)
    ensures AgentNamed(Run(EMPTY, steps).agents, id) == Overlaid(None, CommittedAgents(EMPTY, steps), id)
  {
    if steps != [] {
      var front, step := steps[..|steps| - 1], steps[|steps| - 1];
      var db, log := Run(EMPTY, front), CommittedAgents(EMPTY, front);
      AgentIsLastImport(front, id);
      assert log + [] == log;
      if Commits(db, step) {
        match step {
          case Upsert(agents, _) =>
            UpsertReplaces(db, agents, id);
            LastNamedConcat(log, agents, id);
          case Append(batch, _) =>
            AppendAllFrame(db, StampAll(batch));
          case Prune(_, _) =>
        }
      }
    }
  }

  // ----- reading an agent back

  /** What is read of an import: all of it, its times without the fraction. */
  predicate IsRecordOf(a: Agent, written: Agent) {
    && a.id == written.id && a.dnsName == written.dnsName && a.displayName == written.displayName
    && a.description == written.description && a.providerId == written.providerId && a.status == written.status
    && a.protocols == written.protocols && a.transports == written.transports
    && a.tags == written.tags && a.capabilities == written.capabilities
    && a.firstSeen % 1_000_000_000 == 0 && a.firstSeen <= written.firstSeen < a.firstSeen + 1_000_000_000
    && a.lastUpdated % 1_000_000_000 == 0 && a.lastUpdated <= written.lastUpdated < a.lastUpdated + 1_000_000_000
  }

  lemma StoredIsRecord(a: Agent)
    ensures IsRecordOf(Stored(a), a)
  {
  }

  predicate Datable(a: Agent) {
    FourDigitYear(a.firstSeen) && FourDigitYear(a.lastUpdated)
  }

  /** A stored agent can be read exactly when both its years have four digits. */
  lemma ScanOfStored(a: Agent)
    ensures ScanAgent(Stored(a)) == if Datable(a) then Ok(Stored(a)) else Err(UNREADABLE_TIME)
  {
    var s := Stored(a);
    assert Second(s.firstSeen) == Second(a.firstSeen) && Second(s.lastUpdated) == Second(a.lastUpdated);
    ReadBackExactly(s.firstSeen);
    ReadBackExactly(s.lastUpdated);
  }

  /** What reading an id dictates, given the agents committed so far. */
  function AgentRead(log: seq<Agent>, id: string): Result<Option<Agent>> {
    match LastNamed(log, id)
    case None => Ok(None)
    case Some(a) => if Datable(a) then Ok(Some(Stored(a))) else Err(UNREADABLE_TIME)
  }

  /** Reading an id fails exactly when a year of its last import does not have four
      digits, finds nothing exactly when it was never imported, and gives that
      import back otherwise. */
  lemma GetAgentReadsLastImport(steps: seq<Step>, id: string)
    ensures GetAgent(Run(EMPTY, steps).agents, id) == AgentRead(CommittedAgents(EMPTY, steps), id)
    ensures
      var read, last := GetAgent(Run(EMPTY, steps).agents, id), LastNamed(CommittedAgents(EMPTY, steps), id);
      && (read.Err? <==> last.Some? && !(FourDigitYear(last.value.firstSeen) && FourDigitYear(last.value.lastUpdated)))
      && (read == Ok(None) <==> last == None)
      && (read.Ok? && read.value.Some? ==> last.Some? && IsRecordOf(read.value.value, last.value))
  {
    AgentIsLastImport(steps, id);
    var last := LastNamed(CommittedAgents(EMPTY, steps), id);
    if last.Some? {
      ScanOfStored(last.value);
      StoredIsRecord(last.value);
    }
  }

  /** Every row is what was last committed for its id. */
  lemma RowIsLastImport(steps: seq<Step>, a: Agent)
    requires a in Run(EMPTY, steps).agents
    ensures LastNamed(CommittedAgents(EMPTY, steps), a.id).Some?
    ensures IsRecordOf(a, LastNamed(CommittedAgents(EMPTY, steps), a.id).value)
    ensures a == Stored(LastNamed(CommittedAgents(EMPTY, steps), a.id).value)
  {
    var agents := Run(EMPTY, steps).agents;
    RunConsistent(steps);
    AgentIsLastImport(steps, a.id);
    var i :| 0 <= i < |agents| && agents[i] == a;
    assert FindAgent(agents, a.id) == i;
    StoredIsRecord(LastNamed(CommittedAgents(EMPTY, steps), a.id).value);
  }

  /** The search index over every run: each row holds the texts of the last import
      of its id, and every imported id has exactly one row. */
  lemma IndexHoldsLastImports(steps: seq<Step>, id: string)
    ensures
      var fts, last := Run(EMPTY, steps).fts, LastNamed(CommittedAgents(EMPTY, steps), id);
      && (last.Some? <==> exists i :: 0 <= i < |fts| && fts[i].agentId == id)
      && (forall i :: 0 <= i < |fts| && fts[i].agentId == id ==>
            && fts[i].dnsName == last.value.dnsName && fts[i].displayName == last.value.displayName
            && fts[i].description == last.value.description
            && fts[i].tags == last.value.tags && fts[i].capabilities == last.value.capabilities)
      && (forall i, j :: 0 <= i < |fts| && 0 <= j < |fts| && fts[i].agentId == id && fts[j].agentId == id ==> i == j)
  {
    var db := Run(EMPTY, steps);
    RunConsistent(steps);
    AgentIsLastImport(steps, id);
    forall i | 0 <= i < |db.fts|
      ensures db.fts[i] == Indexed(db.agents[i]) && db.agents[i] in db.agents
    {
    }
    forall i | 0 <= i < |db.fts| && db.fts[i].agentId == id
      ensures LastNamed(CommittedAgents(EMPTY, steps), id).Some?
      ensures IsRecordOf(db.agents[i], LastNamed(CommittedAgents(EMPTY, steps), id).value)
    {
      RowIsLastImport(steps, db.agents[i]);
    }
    if LastNamed(CommittedAgents(EMPTY, steps), id).Some? {
      var k := FindAgent(db.agents, id);
      assert db.fts[k].agentId == id;
    }
  }

  /** A batch of agents is taken exactly when every status is one of the five. */
  lemma {:induction false} BatchNeedsKnownStatuses(db: Db, batch: seq<Agent>)
    ensures UpsertAll(db, batch).Some? <==>
      forall i :: 0 <= i < |batch| ==> batch[i].status in {"ACTIVE", "WARNING", "DEPRECATED", "EXPIRED", "REVOKED"}
  {
    if batch != [] {
      var front := batch[..|batch| - 1];
      BatchNeedsKnownStatuses(db, front);
      assert forall i :: 0 <= i < |front| ==> front[i] == batch[i];
    }
  }

  /** A call that the database fails, or whose batch is refused, changes nothing. */
  lemma FailedCallChangesNothing(db: Db, agents: seq<Agent>, batch: seq<Observation>, keep: int)
    ensures Apply(db, Upsert(agents, false)) == Apply(db, Append(batch, false)) == Apply(db, Prune(keep, false)) == db
    ensures (exists i :: 0 <= i < |agents| && agents[i].status !in {"ACTIVE", "WARNING", "DEPRECATED", "EXPIRED", "REVOKED"}) ==>
      forall works :: Apply(db, Upsert(agents, works)) == db
    ensures AllKnown(db) && (exists i :: 0 <= i < |batch| && !Known(db.agents, batch[i].agent)) ==>
      forall works :: Apply(db, Append(batch, works)) == db
  {
    BatchNeedsKnownStatuses(db, agents);
    if AllKnown(db) {
      AppendNeedsOnlyAgents(db, StampAll(batch));
    }
  }

  /** Rows hold whole seconds, as every write leaves them. */
  predicate WholeSeconds(db: Db) {
    forall i :: 0 <= i < |db.agents| ==> db.agents[i] == Stored(db.agents[i])
  }

  lemma RunHoldsWholeSeconds(steps: seq<Step>)
    ensures WholeSeconds(Run(EMPTY, steps))
  {
    var agents := Run(EMPTY, steps).agents;
    forall i | 0 <= i < |agents|
      ensures agents[i] == Stored(agents[i])
    {
      RowIsLastImport(steps, agents[i]);
      StoredOnce(LastNamed(CommittedAgents(EMPTY, steps), agents[i].id).value);
    }
  }

  lemma StoredOnce(a: Agent)
    ensures Stored(Stored(a)) == Stored(a)
    ensures Datable(Stored(a)) <==> Datable(a)
  {
    assert Second(Stored(a).firstSeen) == Second(a.firstSeen) && Second(Stored(a).lastUpdated) == Second(a.lastUpdated);
  }

  // ----- whole runs

  lemma StampConcat(a: seq<Observation>, b: seq<Observation>)
    ensures StampAll(a + b) == StampAll(a) + StampAll(b)
  {
  }

  /** Every reachable store: keyed rows, known agents, an exact search index, and
      for every pair the reader's answer that the committed log dictates. */
  lemma {:induction false} RunConsistent(steps: seq<Step>)
    ensures Consistent(Run(EMPTY, steps), StampAll(Committed(EMPTY, steps)))
    ensures Mirrored(Run(EMPTY, steps))
  {
    if steps != [] {
      var front, step := steps[..|steps| - 1], steps[|steps| - 1];
      var db, log := Run(EMPTY, front), StampAll(Committed(EMPTY, front));
      RunConsistent(front);
      if Commits(db, step) {
        match step {
          case Upsert(agents, _) =>
            UpsertAllKeeps(db, agents);
            SameRowsSameAnswers(db, UpsertAll(db, agents).value, log);
          case Append(batch, _) =>
            AppendAllKeeps(db, log, StampAll(batch));
            AppendAllFrame(db, StampAll(batch));
            StampConcat(Committed(EMPTY, front), batch);
          case Prune(keep, _) =>
            PruneKeepsConsistent(db, log, keep);
        }
      }
      StampConcat(Committed(EMPTY, front), []);
      assert Committed(EMPTY, front) + [] == Committed(EMPTY, front);
    }
  }

  lemma SameRowsSameAnswers(db: Db, next: Db, log: seq<Evidence>)
    requires Consistent(db, log) && next.rows == db.rows
    requires forall id :: Known(db.agents, id) ==> Known(next.agents, id)
    ensures Consistent(next, log)
  {
    forall agent, signal
      ensures Answers(NewestEvidence(next, agent, signal), log, agent, signal)
    {
      assert NewestEvidence(next, agent, signal) == NewestEvidence(db, agent, signal);
    }
  }

  lemma PruneKeepsConsistent(db: Db, log: seq<Evidence>, keep: int)
    requires Consistent(db, log)
    ensures Consistent(PruneObservations(db, keep), log)
  {
    var next := PruneObservations(db, keep);
    forall agent, signal
      ensures WellKeyed(next.rows) && Answers(NewestEvidence(next, agent, signal), log, agent, signal)
    {
      PruneKeepsLatest(db, keep, agent, signal);
      assert NewestEvidence(next, agent, signal) == NewestEvidence(db, agent, signal);
    }
    PruneKeepsLatest(db, keep, "", "");
    if keep > 0 {
      RetainedRows(db.rows, db.rows, keep);
      forall i | 0 <= i < |next.rows|
        ensures Known(next.agents, next.rows[i].agent)
      {
        assert next.rows[i] in db.rows;
        var j :| 0 <= j < |db.rows| && db.rows[j] == next.rows[i];
      }
    }
  }

  lemma {:induction false} AppendAllFrame(db: Db, batch: seq<Evidence>)
    requires AppendAll(db, batch).Some?
    ensures AppendAll(db, batch).value.agents == db.agents && AppendAll(db, batch).value.fts == db.fts
  {
    if batch != [] {
      AppendAllFrame(db, batch[..|batch| - 1]);
    }
  }

  // ----- the history before any pruning

  /** Entry i is the first of its agent, signal and printed time. */
  predicate FirstOfKey(log: seq<Evidence>, i: nat)
    requires i < |log|
  {
    forall j :: 0 <= j < i ==>
      log[j].agent != log[i].agent || log[j].signal != log[i].signal || log[j].observedAt != log[i].observedAt
  }

  /** The rows are exactly the first writes of the log, each with all it held. */
  predicate HoldsFirstWrites(rows: seq<Row>, log: seq<Evidence>) {
    && (forall i :: 0 <= i < |log| && FirstOfKey(log, i) ==> HasRow(rows, log[i]))
    && (forall k :: 0 <= k < |rows| ==> HasFirstWrite(log, rows[k]))
  }

  predicate HasFirstWrite(log: seq<Evidence>, r: Row) {
    exists i :: 0 <= i < |log| && FirstOfKey(log, i) && IsRowOf(r, log[i])
  }

  predicate IsRowOf(r: Row, e: Evidence) {
    r.agent == e.agent && r.signal == e.signal && r.observedAt == e.observedAt && r.value == e.value && r.provenance == e.provenance
  }

  predicate HasRow(rows: seq<Row>, e: Evidence) {
    exists k :: 0 <= k < |rows| && IsRowOf(rows[k], e)
  }

  lemma HasRowSnoc(rows: seq<Row>, r: Row, e: Evidence)
    ensures HasRow(rows + [r], e) <==> HasRow(rows, e) || IsRowOf(r, e)
  {
    assert (rows + [r])[|rows|] == r;
    assert forall k :: 0 <= k < |rows| ==> (rows + [r])[k] == rows[k];
  }

  lemma FirstWritesSnoc(db: Db, log: seq<Evidence>, e: Evidence)
    requires HoldsFirstWrites(db.rows, log) && AppendObservation(db, e).Some?
    ensures HoldsFirstWrites(AppendObservation(db, e).value.rows, log + [e])
  {
    var all, next := log + [e], AppendObservation(db, e).value.rows;
    assert all[|log|] == e;
    assert forall i :: 0 <= i < |log| ==> all[i] == log[i] && (FirstOfKey(all, i) <==> FirstOfKey(log, i));
    RecordedIsInLog(db.rows, log, e);
    forall i | 0 <= i < |all| && FirstOfKey(all, i)
      ensures HasRow(next, all[i])
    {
      if !Recorded(db.rows, e) {
        HasRowSnoc(db.rows, next[|db.rows|], all[i]);
        assert next == db.rows + [next[|db.rows|]];
      }
    }
    forall k | 0 <= k < |next|
      ensures HasFirstWrite(all, next[k])
    {
      if k < |db.rows| {
        assert HasFirstWrite(log, db.rows[k]);
        var i :| 0 <= i < |log| && FirstOfKey(log, i) && IsRowOf(db.rows[k], log[i]);
        assert FirstOfKey(all, i) && IsRowOf(next[k], all[i]);
      } else {
        assert FirstOfKey(all, |log|) && IsRowOf(next[k], all[|log|]);
      }
    }
  }

  /** A key has a row exactly when the log has an entry for it. */
  lemma RecordedIsInLog(rows: seq<Row>, log: seq<Evidence>, e: Evidence)
    requires HoldsFirstWrites(rows, log)
    ensures Recorded(rows, e) <==>
      exists i :: 0 <= i < |log| && log[i].agent == e.agent && log[i].signal == e.signal && log[i].observedAt == e.observedAt
  {
    if Recorded(rows, e) {
      var k :| 0 <= k < |rows| && OfPair(rows[k], e.agent, e.signal) && rows[k].observedAt == e.observedAt;
      assert HasFirstWrite(log, rows[k]);
      var i :| 0 <= i < |log| && FirstOfKey(log, i) && IsRowOf(rows[k], log[i]);
    }
    if i :| 0 <= i < |log| && log[i].agent == e.agent && log[i].signal == e.signal && log[i].observedAt == e.observedAt {
      var f := FirstOf(log, i);
      assert HasRow(rows, log[f]);
      var k :| 0 <= k < |rows| && IsRowOf(rows[k], log[f]);
      assert OfPair(rows[k], e.agent, e.signal) && rows[k].observedAt == e.observedAt;
    }
  }

  lemma FirstOf(log: seq<Evidence>, i: nat) returns (f: nat)
    requires i < |log|
    ensures f <= i && FirstOfKey(log, f)
    ensures log[f].agent == log[i].agent && log[f].signal == log[i].signal && log[f].observedAt == log[i].observedAt
  {
    f := i;
    if !FirstOfKey(log, i) {
      var j :| 0 <= j < i && log[j].agent == log[i].agent && log[j].signal == log[i].signal && log[j].observedAt == log[i].observedAt;
      f := FirstOf(log, j);
    }
  }

  lemma SplitLast<T>(a: seq<T>, b: seq<T>)
    requires b != []
    ensures a + b == a + b[..|b| - 1] + [b[|b| - 1]]
  {
  }

  lemma {:induction false} FirstWritesOfBatch(db: Db, log: seq<Evidence>, batch: seq<Evidence>)
    requires HoldsFirstWrites(db.rows, log) && AppendAll(db, batch).Some?
    ensures HoldsFirstWrites(AppendAll(db, batch).value.rows, log + batch)
  {
    if batch == [] {
      assert log + batch == log;
    } else {
      var front, e := batch[..|batch| - 1], batch[|batch| - 1];
      FirstWritesOfBatch(db, log, front);
      var d := AppendAll(db, front).value;
      assert AppendAll(db, batch) == AppendObservation(d, e);
      FirstWritesSnoc(d, log + front, e);
      SplitLast(log, batch);
    }
  }

  /** Until something is pruned, the history is complete: every first write of a
      pair and second has its row, and there are no other rows. */
  lemma {:induction false} HistoryIsComplete(steps: seq<Step>)
    requires forall i :: 0 <= i < |steps| ==> !steps[i].Prune?
    ensures HoldsFirstWrites(Run(EMPTY, steps).rows, StampAll(Committed(EMPTY, steps)))
  {
    if steps != [] {
      var front, step := steps[..|steps| - 1], steps[|steps| - 1];
      var db, log := Run(EMPTY, front), StampAll(Committed(EMPTY, front));
      HistoryIsComplete(front);
      StampConcat(Committed(EMPTY, front), if step.Append? && Commits(db, step) then step.batch else []);
      assert log + [] == log;
      if Commits(db, step) {
        match step {
          case Upsert(agents, _) =>
            UpsertAllKeeps(db, agents);
          case Append(batch, _) =>
            FirstWritesOfBatch(db, log, StampAll(batch));
        }
      }
    }
  }

  // ----- pruning is invisible

  /** Whether a batch commits depends on the agents alone. */
  lemma {:induction false} AppendNeedsOnlyAgents(db: Db, batch: seq<Evidence>)
    requires AllKnown(db)
    ensures AppendAll(db, batch).Some? <==> forall i :: 0 <= i < |batch| ==> Known(db.agents, batch[i].agent)
    ensures AppendAll(db, batch).Some? ==> AllKnown(AppendAll(db, batch).value)
  {
    if batch != [] {
      var front, e := batch[..|batch| - 1], batch[|batch| - 1];
      AppendNeedsOnlyAgents(db, front);
      assert forall i :: 0 <= i < |front| ==> front[i] == batch[i];
      if AppendAll(db, front).Some? {
        AppendAllFrame(db, front);
      }
    }
  }

  /** Upserts never look at the observations. */
  lemma {:induction false} UpsertIgnoresRows(db: Db, other: Db, batch: seq<Agent>)
    requires db.agents == other.agents && db.fts == other.fts
    ensures UpsertAll(db, batch).Some? <==> UpsertAll(other, batch).Some?
    ensures UpsertAll(db, batch).Some? ==>
      var d, o := UpsertAll(db, batch).value, UpsertAll(other, batch).value;
      d.agents == o.agents && d.fts == o.fts
  {
    if batch != [] {
      UpsertIgnoresRows(db, other, batch[..|batch| - 1]);
    }
  }

  lemma {:induction false} PrunesLeaveTheLog(steps: seq<Step>)
    ensures Run(EMPTY, steps).agents == Run(EMPTY, WithoutPrunes(steps)).agents
    ensures Run(EMPTY, steps).fts == Run(EMPTY, WithoutPrunes(steps)).fts
    ensures Committed(EMPTY, steps) == Committed(EMPTY, WithoutPrunes(steps))
  {
    if steps != [] {
      var front, step := steps[..|steps| - 1], steps[|steps| - 1];
      var bare := WithoutPrunes(front);
      var db, other := Run(EMPTY, front), Run(EMPTY, bare);
      PrunesLeaveTheLog(front);
      if step.Prune? {
        assert WithoutPrunes(steps) == bare;
      } else {
        assert WithoutPrunes(steps)[..|bare|] == bare;
        RunConsistent(front);
        RunConsistent(bare);
        match step {
          case Upsert(agents, _) =>
            UpsertIgnoresRows(db, other, agents);
          case Append(batch, _) =>
            AppendNeedsOnlyAgents(db, StampAll(batch));
            AppendNeedsOnlyAgents(other, StampAll(batch));
            if Commits(db, step) {
              AppendAllFrame(db, StampAll(batch));
              AppendAllFrame(other, StampAll(batch));
            }
        }
      }
    }
  }

  /** Deleting every prune from a run changes no reader's answer, although a
      pruned row may have been written again in between. */
  lemma PruningIsInvisible(steps: seq<Step>, agent: string, signal: string)
    ensures LatestObservation(Run(EMPTY, steps), agent, signal)
         == LatestObservation(Run(EMPTY, WithoutPrunes(steps)), agent, signal)
  {
    var log := StampAll(Committed(EMPTY, steps));
    RunConsistent(steps);
    RunConsistent(WithoutPrunes(steps));
    PrunesLeaveTheLog(steps);
    AnswersAreUnique(NewestEvidence(Run(EMPTY, steps), agent, signal),
                     NewestEvidence(Run(EMPTY, WithoutPrunes(steps)), agent, signal), log, agent, signal);
  }

  // ----- in terms of time

  predicate ForPair(o: Observation, agent: string, signal: string) {
    o.agent == agent && o.signal == signal
  }

  /** Entry i is the earliest committed at the greatest whole second that was
      committed for the pair. */
  predicate FirstWriteOfNewestSecond(log: seq<Observation>, agent: string, signal: string, i: int) {
    && 0 <= i < |log| && ForPair(log[i], agent, signal)
    && (forall j :: 0 <= j < |log| && ForPair(log[j], agent, signal) ==>
          log[j].at / 1_000_000_000 <= log[i].at / 1_000_000_000)
    && (forall j :: 0 <= j < i && ForPair(log[j], agent, signal) ==>
          log[j].at / 1_000_000_000 < log[i].at / 1_000_000_000)
  }

  /** What is read of an observation: all of it, its time without the fraction. */
  predicate ReadAs(o: Observation, written: Observation) {
    && o.agent == written.agent && o.signal == written.signal && o.value == written.value
    && o.provenance == written.provenance
    && o.at % 1_000_000_000 == 0 && o.at <= written.at < o.at + 1_000_000_000
  }

  lemma TruncatedIsRead(o: Observation)
    ensures ReadAs(Truncated(o), o)
    ensures forall p :: ReadAs(p, o) ==> p == Truncated(o)
  {
  }

  /** The read succeeds with the first write of the newest second, or with nothing
      when nothing was written. */
  ghost predicate ReadsNewestSecond(seen: Result<Option<Observation>>, log: seq<Observation>, agent: string, signal: string) {
    match seen
    case Err(_) => false
    case Ok(None) => forall i :: 0 <= i < |log| ==> !ForPair(log[i], agent, signal)
    case Ok(Some(o)) => exists i :: FirstWriteOfNewestSecond(log, agent, signal, i) && ReadAs(o, log[i])
  }

  /** The read succeeds with an entry although a later one was committed. */
  ghost predicate ReadsStale(seen: Result<Option<Observation>>, log: seq<Observation>, agent: string, signal: string) {
    exists i, j ::
      && 0 <= i < |log| && 0 <= j < |log| && ForPair(log[i], agent, signal) && ForPair(log[j], agent, signal)
      && seen.Ok? && seen.value.Some? && ReadAs(seen.value.value, log[i])
      && log[i].at / 1_000_000_000 < log[j].at / 1_000_000_000
  }

  /** Readers of one log agree, so the first statement leaves no freedom. */
  lemma NewestSecondIsUnique(x: Result<Option<Observation>>, y: Result<Option<Observation>>, log: seq<Observation>,
                             agent: string, signal: string)
    requires ReadsNewestSecond(x, log, agent, signal) && ReadsNewestSecond(y, log, agent, signal)
    ensures x == y
  {
    if x.value.Some? && y.value.Some? {
      var i :| FirstWriteOfNewestSecond(log, agent, signal, i) && ReadAs(x.value.value, log[i]);
      var j :| FirstWriteOfNewestSecond(log, agent, signal, j) && ReadAs(y.value.value, log[j]);
      assert i == j;
      TruncatedIsRead(log[i]);
    }
  }

  lemma NewestIsNotStale(seen: Result<Option<Observation>>, log: seq<Observation>, agent: string, signal: string)
    requires ReadsNewestSecond(seen, log, agent, signal)
    ensures !ReadsStale(seen, log, agent, signal)
  {
    forall i, o | 0 <= i < |log| && ReadAs(o, log[i])
      ensures Second(o.at) == Second(log[i].at)
    {
      TruncatedIsRead(log[i]);
    }
  }

  predicate FourDigitYears(log: seq<Observation>) {
    forall i :: 0 <= i < |log| ==> FourDigitYear(log[i].at)
  }

  predicate ReachableTimes(log: seq<Observation>) {
    forall i :: 0 <= i < |log| ==> Reachable(log[i].at)
  }

  /** Some instant of the pair was committed in the given era. */
  predicate Has(log: seq<Observation>, agent: string, signal: string, era: Era) {
    exists i :: 0 <= i < |log| && ForPair(log[i], agent, signal) && EraOf(log[i].at) == era
  }

  /** None of the pair's instants is in the year 10000, and if there is any, one
      has a four-digit year. */
  predicate Sound(log: seq<Observation>, agent: string, signal: string) {
    && !Has(log, agent, signal, Year10000)
    && (Has(log, agent, signal, BeforeZero) ==> Has(log, agent, signal, UpTo1000) || Has(log, agent, signal, From1001))
  }

  /** What is read comes from the era that sorts last among those present. */
  lemma NewestTextIsOfTopEra(log: seq<Observation>, agent: string, signal: string, k: nat, i: nat)
    requires ReachableTimes(log) && FirstAtLatestText(StampAll(log), agent, signal, k)
    requires i < |log| && ForPair(log[i], agent, signal)
    ensures k < |log| && TextRank(EraOf(log[i].at)) <= TextRank(EraOf(log[k].at))
    ensures !Less(FormatTime(log[k].at), FormatTime(log[i].at))
    ensures i < k ==> FormatTime(log[i].at) != FormatTime(log[k].at)
  {
    var stamped := StampAll(log);
    assert About(stamped[i], agent, signal);
    assert stamped[i].observedAt == FormatTime(log[i].at) && stamped[k].observedAt == FormatTime(log[k].at);
    if TextRank(EraOf(log[k].at)) < TextRank(EraOf(log[i].at)) {
      ErasSort(log[k].at, log[i].at);
    }
  }

  /** The row with the latest text is the first write of the newest second unless
      the year 10000 hides behind it. */
  lemma NewestTextIsNewestSecond(log: seq<Observation>, agent: string, signal: string, k: nat)
    requires ReachableTimes(log) && FirstAtLatestText(StampAll(log), agent, signal, k)
    requires !Has(log, agent, signal, Year10000)
    ensures FirstWriteOfNewestSecond(log, agent, signal, k)
  {
    assert About(StampAll(log)[k], agent, signal);
    assert ForPair(log[k], agent, signal) && EraOf(log[k].at) != Year10000;
    forall j | 0 <= j < |log| && ForPair(log[j], agent, signal)
      ensures Second(log[j].at) <= Second(log[k].at)
      ensures j < k ==> Second(log[j].at) < Second(log[k].at)
    {
      assert EraOf(log[j].at) != Year10000;
      NewestTextIsOfTopEra(log, agent, signal, k, j);
      TextOrderExactly(log[k].at, log[j].at);
    }
  }

  lemma ReadBackOfStamp(o: Observation)
    ensures ReadBack(Stamp(o)) == if FourDigitYear(o.at) then Ok(Truncated(o)) else Err(UNREADABLE_TIME)
  {
    ReadBackExactly(o.at);
  }

  /** Everything a read can come to, for every run whose committed instants a
      timestamp can denote.  It is right exactly when the pair has no instant in
      the year 10000, and has one of a four-digit year if it has any.  Otherwise
      it answers with an older observation when the pair has one from 1001-9999,
      and fails when it has none. */
  lemma LatestIsRightExactly(steps: seq<Step>, agent: string, signal: string)
    requires ReachableTimes(Committed(EMPTY, steps))
    ensures
      var log, seen := Committed(EMPTY, steps), LatestObservation(Run(EMPTY, steps), agent, signal);
      && (ReadsNewestSecond(seen, log, agent, signal) <==> Sound(log, agent, signal))
      && (ReadsStale(seen, log, agent, signal) <==> Has(log, agent, signal, Year10000) && Has(log, agent, signal, From1001))
      && (seen.Err? <==> !Sound(log, agent, signal) && !Has(log, agent, signal, From1001))
  {
    var log, newest := Committed(EMPTY, steps), NewestEvidence(Run(EMPTY, steps), agent, signal);
    RunConsistent(steps);
    ReadDependsOnEras(log, newest, agent, signal);
  }

  lemma TopEra(log: seq<Observation>, agent: string, signal: string, k: nat)
    requires ReachableTimes(log) && FirstAtLatestText(StampAll(log), agent, signal, k)
    ensures k < |log| && ForPair(log[k], agent, signal)
    ensures EraOf(log[k].at) == From1001 <==> Has(log, agent, signal, From1001)
    ensures FourDigitYear(log[k].at) <==>
      Has(log, agent, signal, From1001) || (Has(log, agent, signal, UpTo1000) && !Has(log, agent, signal, Year10000))
  {
    assert About(StampAll(log)[k], agent, signal);
    forall i | 0 <= i < |log| && ForPair(log[i], agent, signal)
      ensures TextRank(EraOf(log[i].at)) <= TextRank(EraOf(log[k].at))
    {
      NewestTextIsOfTopEra(log, agent, signal, k, i);
    }
  }

  lemma ReadDependsOnEras(log: seq<Observation>, newest: Option<Evidence>, agent: string, signal: string)
    requires ReachableTimes(log) && Answers(newest, StampAll(log), agent, signal)
    ensures ReadsNewestSecond(ReadOf(newest), log, agent, signal) <==> Sound(log, agent, signal)
    ensures ReadsStale(ReadOf(newest), log, agent, signal) <==> Has(log, agent, signal, Year10000) && Has(log, agent, signal, From1001)
    ensures ReadOf(newest).Err? <==> !Sound(log, agent, signal) && !Has(log, agent, signal, From1001)
  {
    if newest.None? {
      assert forall i :: 0 <= i < |log| ==> About(StampAll(log)[i], agent, signal) == ForPair(log[i], agent, signal);
    } else {
      var k :| FirstAtLatestText(StampAll(log), agent, signal, k) && newest.value == StampAll(log)[k];
      RowDependsOnEras(log, agent, signal, k);
    }
  }

  lemma RowDependsOnEras(log: seq<Observation>, agent: string, signal: string, k: nat)
    requires ReachableTimes(log) && FirstAtLatestText(StampAll(log), agent, signal, k)
    ensures k < |log|
    ensures
      var seen := ReadOf(Some(Stamp(log[k])));
      && (ReadsNewestSecond(seen, log, agent, signal) <==> Sound(log, agent, signal))
      && (ReadsStale(seen, log, agent, signal) <==> Has(log, agent, signal, Year10000) && Has(log, agent, signal, From1001))
      && (seen.Err? <==> !Sound(log, agent, signal) && !Has(log, agent, signal, From1001))
  {
    var seen := ReadOf(Some(Stamp(log[k])));
    TopEra(log, agent, signal, k);
    ReadBackOfStamp(log[k]);
    TruncatedIsRead(log[k]);
    if Sound(log, agent, signal) {
      NewestTextIsNewestSecond(log, agent, signal, k);
      NewestIsNotStale(seen, log, agent, signal);
    } else if Has(log, agent, signal, From1001) {
      OvertakenIsStale(log, agent, signal, k);
      if ReadsNewestSecond(seen, log, agent, signal) {
        NewestIsNotStale(seen, log, agent, signal);
      }
    }
  }

  lemma OvertakenIsStale(log: seq<Observation>, agent: string, signal: string, k: nat)
    requires ReachableTimes(log) && k < |log| && ForPair(log[k], agent, signal) && EraOf(log[k].at) == From1001
    requires Has(log, agent, signal, Year10000)
    ensures ReadsStale(Ok(Some(Truncated(log[k]))), log, agent, signal)
  {
    var w :| 0 <= w < |log| && ForPair(log[w], agent, signal) && EraOf(log[w].at) == Year10000;
    TenThousandIsLater(log[k].at, log[w].at);
    TruncatedIsRead(log[k]);
  }

  /** For every run whose committed instants have four-digit years, a reader gets
      the first write of the newest second, and nothing exactly when nothing was
      written for the pair. */
  lemma LatestIsFirstWriteOfNewestSecond(steps: seq<Step>, agent: string, signal: string)
    requires FourDigitYears(Committed(EMPTY, steps))
    ensures ReadsNewestSecond(LatestObservation(Run(EMPTY, steps), agent, signal), Committed(EMPTY, steps), agent, signal)
  {
    LatestIsRightExactly(steps, agent, signal);
  }

  // ----- the two failures, by example

  lemma RunSnoc(db: Db, steps: seq<Step>, step: Step)
    ensures Run(db, steps + [step]) == Apply(Run(db, steps), step)
  {
    assert (steps + [step])[..|steps|] == steps;
  }

  lemma SingletonBatches(db: Db, a: Agent, e: Evidence)
    ensures UpsertAll(db, [a]) == UpsertAgent(db, a)
    ensures AppendAll(db, [e]) == AppendObservation(db, e)
  {
    assert [a][..0] == [] && [e][..0] == [];
    assert UpsertAll(db, []) == Some(db) && AppendAll(db, []) == Some(db);
  }

  /** A run that imports an agent and one observation of it. */
  function OneObservation(a: Agent, o: Observation): seq<Step> {
    [] + [Upsert([a], true)] + [Append([o], true)]
  }

  lemma OneObservationStored(a: Agent, o: Observation)
    requires ValidStatus(a.status) && o.agent == a.id
    ensures UpsertAgent(EMPTY, a).Some? && AppendObservation(UpsertAgent(EMPTY, a).value, Stamp(o)).Some?
    ensures Run(EMPTY, OneObservation(a, o)) == AppendObservation(UpsertAgent(EMPTY, a).value, Stamp(o)).value
  {
    var d0 := UpsertAgent(EMPTY, a).value;
    SingletonBatches(EMPTY, a, Stamp(o));
    SingletonBatches(d0, a, Stamp(o));
    assert StampAll([o]) == [Stamp(o)];
    RunSnoc(EMPTY, [], Upsert([a], true));
    RunSnoc(EMPTY, [] + [Upsert([a], true)], Append([o], true));
  }

  /** A producer may legally submit an instant whose UTC year is 10000 (the end of
      9999 with a negative offset).  On its own it makes every later read of the
      pair fail. */
  lemma LoneYearTenThousandFails(a: Agent, signal: string, value: RawValue, first: Civil)
    requires ValidStatus(a.status) && first == Civil(10_000, 1, 1, 0, 0, 0)
    ensures Valid(first)
    ensures
      var o := Observation(a.id, signal, InstantAt(SecondOf(first)), value, None);
      LatestObservation(Run(EMPTY, OneObservation(a, o)), a.id, signal).Err?
  {
    var o := Observation(a.id, signal, InstantAt(SecondOf(first)), value, None);
    CivilUnique(first);
    UnreadableAlone(a, o);
  }

  lemma UnreadableAlone(a: Agent, o: Observation)
    requires ValidStatus(a.status) && o.agent == a.id && !FourDigitYear(o.at)
    ensures LatestObservation(Run(EMPTY, OneObservation(a, o)), a.id, o.signal).Err?
  {
    OneObservationStored(a, o);
    OnlyRow(UpsertAgent(EMPTY, a).value, Stamp(o));
    ReadBackOfStamp(o);
  }

  lemma OnlyRow(d0: Db, e: Evidence)
    requires d0.rows == [] && AppendObservation(d0, e).Some?
    ensures NewestEvidence(AppendObservation(d0, e).value, e.agent, e.signal) == Some(e)
  {
    var rows := AppendObservation(d0, e).value.rows;
    assert !Recorded(d0.rows, e);
    assert |rows| == 1 && rows[..|rows| - 1] == [];
    assert Latest(rows, e.agent, e.signal) == Some(rows[0]);
  }

  /** After one from 9999, readers keep getting that older observation instead. */
  lemma YearTenThousandIsNeverRead(a: Agent, signal: string, value: RawValue, last: Civil, first: Civil)
    requires ValidStatus(a.status)
    requires last == Civil(9999, 12, 31, 23, 59, 59) && first == Civil(10_000, 1, 1, 0, 0, 0)
    ensures Valid(last) && Valid(first) && SecondOf(last) < SecondOf(first)
    ensures
      var older := Observation(a.id, signal, InstantAt(SecondOf(last)), value, None);
      var newer := Observation(a.id, signal, InstantAt(SecondOf(first)), value, None);
      LatestObservation(Run(EMPTY, OneObservation(a, older) + [Append([newer], true)]), a.id, signal) == Ok(Some(Truncated(older)))
  {
    FiveDigitYearSortsEarlier(last, first);
    CivilUnique(last);
    CivilUnique(first);
    LaterTextIsKept(a, Observation(a.id, signal, InstantAt(SecondOf(last)), value, None),
                    Observation(a.id, signal, InstantAt(SecondOf(first)), value, None));
  }

  lemma LaterTextIsKept(a: Agent, older: Observation, newer: Observation)
    requires ValidStatus(a.status)
    requires older.agent == a.id && newer.agent == a.id && older.signal == newer.signal
    requires FourDigitYear(older.at) && Less(Stamp(newer).observedAt, Stamp(older).observedAt)
    ensures
      var db := Run(EMPTY, OneObservation(a, older) + [Append([newer], true)]);
      && NewestEvidence(db, a.id, older.signal) == Some(Stamp(older))
      && LatestObservation(db, a.id, older.signal) == Ok(Some(Truncated(older)))
  {
    var e, f := Stamp(older), Stamp(newer);
    OneObservationStored(a, older);
    TwoAppends(UpsertAgent(EMPTY, a).value, e, f);
    var d1 := Run(EMPTY, OneObservation(a, older));
    SingletonBatches(d1, a, f);
    assert StampAll([newer]) == [f];
    RunSnoc(EMPTY, OneObservation(a, older), Append([newer], true));
    ReadBackOfStamp(older);
  }

  lemma TwoAppends(d0: Db, older: Evidence, newer: Evidence)
    requires d0.rows == [] && |d0.agents| == 1 && d0.agents[0].id == older.agent
    requires newer.agent == older.agent && older.signal == newer.signal
    requires Less(newer.observedAt, older.observedAt)
    ensures
      && AppendObservation(d0, older).Some?
      && AppendObservation(AppendObservation(d0, older).value, newer).Some?
      && NewestEvidence(AppendObservation(AppendObservation(d0, older).value, newer).value,
                           older.agent, older.signal) == Some(older)
  {
    var agent, signal := older.agent, older.signal;
    AppendOneKeeps(d0, [], older);
    var d1 := AppendObservation(d0, older).value;
    AppendOneKeeps(d1, [] + [older], newer);
    var d2 := AppendObservation(d1, newer).value;
    AnswerGrows(None, [], older, agent, signal);
    LessAsymmetric(newer.observedAt, older.observedAt);
    AnswerGrows(Some(older), [] + [older], newer, agent, signal);
    AnswersAreUnique(NewestEvidence(d2, agent, signal), Some(older), [] + [older] + [newer], agent, signal);
  }

  // ----- retention

  /** The rows of one pair, as a set. */
  function PairRows(rows: seq<Row>, agent: string, signal: string): set<Row> {
    set r | r in rows && OfPair(r, agent, signal)
  }

  /** Every kept row of a pair has the later text than every dropped one. */
  lemma PruneKeepsNewest(db: Db, keep: int, kept: Row, dropped: Row)
    requires WellKeyed(db.rows) && keep > 0
    requires kept in PruneObservations(db, keep).rows
    requires dropped in db.rows && dropped !in PruneObservations(db, keep).rows
    requires OfPair(kept, dropped.agent, dropped.signal)
    ensures Less(dropped.observedAt, kept.observedAt)
  {
    RetainedRows(db.rows, db.rows, keep);
    LessTotal(kept.observedAt, dropped.observedAt);
    if Less(kept.observedAt, dropped.observedAt) {
      FewerNewer(db.rows, dropped, kept);
    } else if kept.observedAt == dropped.observedAt {
      var i :| 0 <= i < |db.rows| && db.rows[i] == kept;
      var j :| 0 <= j < |db.rows| && db.rows[j] == dropped;
      assert SameKey(db.rows[i], db.rows[j]) && SameKey(db.rows[j], db.rows[i]);
    }
  }

  predicate FromLog(r: Row, log: seq<Evidence>) {
    exists i :: 0 <= i < |log| && log[i] == Evidence(r.agent, r.signal, r.observedAt, r.value, r.provenance)
  }

  predicate AllFromLog(rows: seq<Row>, log: seq<Evidence>) {
    forall i :: 0 <= i < |rows| ==> FromLog(rows[i], log)
  }

  lemma LongerLog(rows: seq<Row>, log: seq<Evidence>, more: seq<Evidence>)
    requires AllFromLog(rows, log)
    ensures AllFromLog(rows, log + more)
  {
    forall i | 0 <= i < |rows|
      ensures FromLog(rows[i], log + more)
    {
      var r := rows[i];
      var j :| 0 <= j < |log| && log[j] == Evidence(r.agent, r.signal, r.observedAt, r.value, r.provenance);
      assert (log + more)[j] == log[j];
    }
  }

  lemma {:induction false} AppendedRowsFromLog(db: Db, log: seq<Evidence>, batch: seq<Evidence>)
    requires AllFromLog(db.rows, log) && AppendAll(db, batch).Some?
    ensures AllFromLog(AppendAll(db, batch).value.rows, log + batch)
  {
    if batch == [] {
      assert log + batch == log;
    } else {
      var front, e := batch[..|batch| - 1], batch[|batch| - 1];
      AppendedRowsFromLog(db, log, front);
      LongerLog(AppendAll(db, front).value.rows, log + front, [e]);
      assert log + batch == log + front + [e];
      assert (log + batch)[|log + front|] == e;
    }
  }

  /** Every stored row is a committed observation. */
  lemma {:induction false} RowsAreCommitted(steps: seq<Step>)
    ensures AllFromLog(Run(EMPTY, steps).rows, StampAll(Committed(EMPTY, steps)))
  {
    if steps != [] {
      var front, step := steps[..|steps| - 1], steps[|steps| - 1];
      var db, log := Run(EMPTY, front), StampAll(Committed(EMPTY, front));
      RowsAreCommitted(front);
      StampConcat(Committed(EMPTY, front), if step.Append? && Commits(db, step) then step.batch else []);
      if Commits(db, step) {
        match step {
          case Upsert(agents, _) =>
            UpsertAllKeeps(db, agents);
          case Append(batch, _) =>
            AppendedRowsFromLog(db, log, StampAll(batch));
          case Prune(keep, _) =>
            PrunedRowsFromLog(db, log, keep);
        }
      }
      assert log + [] == log;
    }
  }

  lemma PrunedRowsFromLog(db: Db, log: seq<Evidence>, keep: int)
    requires AllFromLog(db.rows, log)
    ensures AllFromLog(PruneObservations(db, keep).rows, log)
  {
    var next := PruneObservations(db, keep);
    RetainedRows(db.rows, db.rows, keep);
    forall i | 0 <= i < |next.rows|
      ensures FromLog(next.rows[i], log)
    {
      assert next.rows[i] in next.rows;
      var j :| 0 <= j < |db.rows| && db.rows[j] == next.rows[i];
    }
  }

  /** Over every run: a kept row of a pair is later in time than a dropped one
      exactly when the two committed instants do not cross from 1001-9999 into
      10000. */
  lemma PruneKeepsLaterExactly(steps: seq<Step>, keep: int, kept: Row, dropped: Row) returns (i: nat, j: nat)
    requires ReachableTimes(Committed(EMPTY, steps)) && keep > 0
    requires kept in PruneObservations(Run(EMPTY, steps), keep).rows
    requires dropped in Run(EMPTY, steps).rows && dropped !in PruneObservations(Run(EMPTY, steps), keep).rows
    requires OfPair(kept, dropped.agent, dropped.signal)
    ensures
      var log := Committed(EMPTY, steps);
      && i < |log| && ForPair(log[i], kept.agent, kept.signal) && kept.observedAt == FormatTime(log[i].at)
      && j < |log| && ForPair(log[j], kept.agent, kept.signal) && dropped.observedAt == FormatTime(log[j].at)
      && (Second(log[j].at) < Second(log[i].at) <==> !Crosses(log[i].at, log[j].at))
  {
    var db, log := Run(EMPTY, steps), Committed(EMPTY, steps);
    RunConsistent(steps);
    PruneKeepsNewest(db, keep, kept, dropped);
    RetainedRows(db.rows, db.rows, keep);
    i := CommittedAs(steps, kept);
    j := CommittedAs(steps, dropped);
    TextOrderExactly(log[j].at, log[i].at);
  }

  lemma CommittedAs(steps: seq<Step>, r: Row) returns (i: nat)
    requires r in Run(EMPTY, steps).rows
    ensures
      var log := Committed(EMPTY, steps);
      i < |log| && ForPair(log[i], r.agent, r.signal) && r.observedAt == FormatTime(log[i].at)
  {
    var rows, log := Run(EMPTY, steps).rows, StampAll(Committed(EMPTY, steps));
    RowsAreCommitted(steps);
    var k :| 0 <= k < |rows| && rows[k] == r;
    assert FromLog(rows[k], log);
    i :| 0 <= i < |log| && log[i] == Evidence(r.agent, r.signal, r.observedAt, r.value, r.provenance);
  }

  /** The crossing is real: pruning a pair with one observation from the end of 9999
      and a later one from 10000 to a single row drops the later one. */
  lemma PruneDropsYearTenThousand(a: Agent, signal: string, value: RawValue, last: Civil, first: Civil)
    requires ValidStatus(a.status)
    requires last == Civil(9999, 12, 31, 23, 59, 59) && first == Civil(10_000, 1, 1, 0, 0, 0)
    ensures Valid(last) && Valid(first)
    ensures
      var older := Observation(a.id, signal, InstantAt(SecondOf(last)), value, None);
      var newer := Observation(a.id, signal, InstantAt(SecondOf(first)), value, None);
      var pruned := PruneObservations(Run(EMPTY, OneObservation(a, older) + [Append([newer], true)]), 1);
      && Second(older.at) < Second(newer.at)
      && forall r :: r in pruned.rows && OfPair(r, a.id, signal) ==> r.observedAt == FormatTime(older.at)
  {
    FiveDigitYearSortsEarlier(last, first);
    CivilUnique(last);
    CivilUnique(first);
    var older := Observation(a.id, signal, InstantAt(SecondOf(last)), value, None);
    var newer := Observation(a.id, signal, InstantAt(SecondOf(first)), value, None);
    var steps := OneObservation(a, older) + [Append([newer], true)];
    LaterTextIsKept(a, older, newer);
    RunConsistent(steps);
    OnlyLatestSurvives(Run(EMPTY, steps), a.id, signal, Stamp(older));
  }

  lemma AtMostOne(rows: set<Row>, r: Row, q: Row)
    requires |rows| <= 1 && r in rows && q in rows
    ensures r == q
  {
    if r != q {
      SubsetSize({r, q}, rows);
    }
  }

  lemma OnlyLatestSurvives(db: Db, agent: string, signal: string, e: Evidence)
    requires WellKeyed(db.rows) && NewestEvidence(db, agent, signal) == Some(e)
    ensures forall r :: r in PruneObservations(db, 1).rows && OfPair(r, agent, signal) ==> r.observedAt == e.observedAt
  {
    var pruned := PruneObservations(db, 1);
    PruneKeepsLatest(db, 1, agent, signal);
    PruneKeepsExactlyK(db, 1, agent, signal);
    LatestIsNewest(pruned.rows, agent, signal);
    var top, rows := Latest(pruned.rows, agent, signal).value, PairRows(pruned.rows, agent, signal);
    assert top in rows && top.observedAt == e.observedAt;
    forall r | r in pruned.rows && OfPair(r, agent, signal)
      ensures r == top
    {
      AtMostOne(rows, r, top);
    }
  }

  /** Whatever is newer than a later row is newer than an earlier one. */
  lemma {:induction false} FewerNewer(rows: seq<Row>, later: Row, earlier: Row)
    requires OfPair(earlier, later.agent, later.signal) && Less(earlier.observedAt, later.observedAt)
    ensures NewerThan(rows, later) <= NewerThan(rows, earlier)
  {
    if rows != [] {
      var q := rows[|rows| - 1];
      FewerNewer(rows[..|rows| - 1], later, earlier);
      if Newer(q, later) && q.observedAt != later.observedAt {
        LessTransitive(earlier.observedAt, later.observedAt, q.observedAt);
      }
    }
  }

  lemma OneMoreNewer(front: seq<Row>, q: Row, r: Row)
    requires q !in front
    ensures
      |set x | x in front + [q] && OfPair(x, r.agent, r.signal) && Newer(x, r)| ==
      |set x | x in front && OfPair(x, r.agent, r.signal) && Newer(x, r)|
      + if OfPair(q, r.agent, r.signal) && Newer(q, r) then 1 else 0
  {
    var before := set x | x in front && OfPair(x, r.agent, r.signal) && Newer(x, r);
    var now := set x | x in front + [q] && OfPair(x, r.agent, r.signal) && Newer(x, r);
    if OfPair(q, r.agent, r.signal) && Newer(q, r) {
      assert now == before + {q};
    } else {
      assert now == before;
    }
  }

  /** The number of newer rows is the size of the set of newer rows. */
  lemma {:induction false} NewerThanCounts(rows: seq<Row>, r: Row)
    requires WellKeyed(rows)
    ensures NewerThan(rows, r) == |set q | q in rows && OfPair(q, r.agent, r.signal) && Newer(q, r)|
  {
    if rows != [] {
      var front, q := rows[..|rows| - 1], rows[|rows| - 1];
      NewerThanCounts(front, r);
      assert rows == front + [q];
      forall i | 0 <= i < |front|
        ensures front[i] != q
      {
        assert !SameKey(rows[i], rows[|rows| - 1]);
      }
      OneMoreNewer(front, q, r);
    } else {
      assert (set q | q in rows && OfPair(q, r.agent, r.signal) && Newer(q, r)) == {};
    }
  }

  /** Rows of one pair with pairwise different times. */
  predicate Ladder(s: set<Row>) {
    forall r, q :: r in s && q in s && r != q ==> r.observedAt != q.observedAt
  }

  function Above(s: set<Row>, r: Row): set<Row> {
    set q | q in s && Less(r.observedAt, q.observedAt)
  }

  function Top(s: set<Row>, keep: nat): set<Row> {
    set r | r in s && |Above(s, r)| < keep
  }

  lemma {:induction false} HasOldest(s: set<Row>) returns (r: Row)
    requires s != {} && Ladder(s)
    ensures r in s && forall q :: q in s && q != r ==> Less(r.observedAt, q.observedAt)
    decreases |s|
  {
    r :| r in s;
    if s != {r} {
      var rest := s - {r};
      var o := HasOldest(rest);
      LessTotal(r.observedAt, o.observedAt);
      if Less(o.observedAt, r.observedAt) {
        r := o;
      } else {
        forall q | q in s && q != r
          ensures Less(r.observedAt, q.observedAt)
        {
          if q != o {
            LessTransitive(r.observedAt, o.observedAt, q.observedAt);
          }
        }
      }
    }
  }

  /** A ladder's top is as tall as asked for, or the whole ladder. */
  lemma {:induction false} TopSize(s: set<Row>, keep: nat)
    requires Ladder(s)
    ensures |Top(s, keep)| == if |s| < keep then |s| else keep
    decreases |s|
  {
    if s == {} {
      assert Top(s, keep) == {};
    } else {
      var o := HasOldest(s);
      var rest := s - {o};
      TopSize(rest, keep);
      assert Above(s, o) == rest by {
        LessIrreflexive(o.observedAt);
      }
      forall r | r in rest
        ensures Above(s, r) == Above(rest, r)
      {
        LessAsymmetric(o.observedAt, r.observedAt);
      }
      if |s| <= keep {
        forall r | r in s
          ensures |Above(s, r)| < keep
        {
          LessIrreflexive(r.observedAt);
          assert Above(s, r) <= s - {r};
          SubsetSize(Above(s, r), s - {r});
        }
        assert Top(s, keep) == s;
      } else {
        assert Top(s, keep) == Top(rest, keep);
      }
    }
  }

  lemma {:induction false} SubsetSize(a: set<Row>, b: set<Row>)
    requires a <= b
    ensures |a| <= |b|
    decreases b
  {
    if a != {} {
      var x :| x in a;
      SubsetSize(a - {x}, b - {x});
    }
  }

  /** Pruning leaves each pair exactly its `keep` newest rows, or all of them if
      there are fewer. */
  lemma PruneKeepsExactlyK(db: Db, keep: int, agent: string, signal: string)
    requires WellKeyed(db.rows) && keep > 0
    ensures
      var before, after := PairRows(db.rows, agent, signal), PairRows(PruneObservations(db, keep).rows, agent, signal);
      after <= before && |after| == if |before| < keep then |before| else keep
  {
    var before, after := PairRows(db.rows, agent, signal), PairRows(PruneObservations(db, keep).rows, agent, signal);
    RetainedRows(db.rows, db.rows, keep);
    assert Ladder(before) by {
      forall r, q | r in before && q in before && r != q
        ensures r.observedAt != q.observedAt
      {
        var i :| 0 <= i < |db.rows| && db.rows[i] == r;
        var j :| 0 <= j < |db.rows| && db.rows[j] == q;
        assert i < j ==> !SameKey(db.rows[i], db.rows[j]);
        assert j < i ==> !SameKey(db.rows[j], db.rows[i]);
      }
    }
    forall r | r in before
      ensures NewerThan(db.rows, r) == |Above(before, r)|
    {
      NewerThanCounts(db.rows, r);
      LessIrreflexive(r.observedAt);
      assert (set q | q in db.rows && OfPair(q, r.agent, r.signal) && Newer(q, r)) == Above(before, r);
    }
    assert after == Top(before, keep);
    TopSize(before, keep);
  }
}
