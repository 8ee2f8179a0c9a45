/** The SQLite tables, and each statement the store issues as a function from
    tables to tables.  A statement that a constraint refuses yields None. */
module Tables {
  import opened Text
  import opened TimeText
  import opened Domain

  /** A row of the agents_fts virtual table. */
  datatype FtsRow = FtsRow(
    agentId: string, dnsName: string, displayName: string, description: string,
    tags: seq<string>, capabilities: seq<string>)

  /** A row of signal_observations. */
  datatype Row = Row(
    obsId: nat, agent: string, signal: string, observedAt: string,
    value: RawValue, provenance: Option<Provenance>)

  /** agents and agents_fts in rowid order, observations in obs_id order, and
      the AUTOINCREMENT counter, which never goes back. */
  datatype Db = Db(agents: seq<Agent>, fts: seq<FtsRow>, rows: seq<Row>, lastId: nat)

  const EMPTY := Db([], [], [], 0)

  // ----- agents

  function FindAgent(agents: seq<Agent>, id: string): (i: nat)
    ensures i <= |agents|
    ensures i < |agents| ==> agents[i].id == id
    ensures forall j :: 0 <= j < i ==> agents[j].id != id
  {
    if agents == [] then 0
    else if agents[0].id == id then 0
    else
      var i := FindAgent(agents[1..], id);
      assert forall j :: 1 <= j < i + 1 ==> agents[j] == agents[1..][j - 1];
      i + 1
  }

  predicate Known(agents: seq<Agent>, id: string) {
    FindAgent(agents, id) < |agents|
  }

  function AgentNamed(agents: seq<Agent>, id: string): Option<Agent> {
    if Known(agents, id) then Some(agents[FindAgent(agents, id)]) else None
  }

  /** What the columns keep of an agent: times lose their fraction. */
  function Stored(a: Agent): Agent {
    a.(firstSeen := Second(a.firstSeen) * NANOS_PER_SECOND,
       lastUpdated := Second(a.lastUpdated) * NANOS_PER_SECOND)
  }

  /** Reading a row parses the text of both times. */
  function ScanAgent(a: Agent): Result<Agent> {
    match (ParseTime(FormatTime(a.firstSeen)), ParseTime(FormatTime(a.lastUpdated)))
    case (Some(first), Some(last)) =>
      Ok(a.(firstSeen := first * NANOS_PER_SECOND, lastUpdated := last * NANOS_PER_SECOND))
    case _ => Err(UNREADABLE_TIME)
  }

  function GetAgent(agents: seq<Agent>, id: string): Result<Option<Agent>> {
    match AgentNamed(agents, id)
    case None => Ok(None)
    case Some(a) =>
      match ScanAgent(a)
      case Err(x) => Err(x)
      case Ok(read) => Ok(Some(read))
  }

  function Indexed(a: Agent): FtsRow {
    FtsRow(a.id, a.dnsName, a.displayName, a.description, a.tags, a.capabilities)
  }

  /** Trigger agents_au: every index row of the agent takes the new fields. */
  function Resync(fts: seq<FtsRow>, row: FtsRow): (r: seq<FtsRow>)
    ensures |r| == |fts|
    ensures forall i :: 0 <= i < |fts| ==> r[i] == if fts[i].agentId == row.agentId then row else fts[i]
  {
    if fts == [] then [] else [if fts[0].agentId == row.agentId then row else fts[0]] + Resync(fts[1..], row)
  }

  /** INSERT ... ON CONFLICT(agent_id) DO UPDATE, with its triggers. */
  function UpsertAgent(db: Db, a: Agent): Option<Db> {
    if !ValidStatus(a.status) then None
    else
      var i := FindAgent(db.agents, a.id);
      if i < |db.agents| then
        Some(db.(agents := db.agents[i := Stored(a)], fts := Resync(db.fts, Indexed(a))))
      else
        Some(db.(agents := db.agents + [Stored(a)], fts := db.fts + [Indexed(a)]))
  }

  // ----- observations

  predicate OfPair(r: Row, agent: string, signal: string) {
    r.agent == agent && r.signal == signal
  }

  predicate SameKey(r: Row, q: Row) {
    OfPair(r, q.agent, q.signal) && r.observedAt == q.observedAt
  }

  predicate Recorded(rows: seq<Row>, e: Evidence) {
    exists i :: 0 <= i < |rows| && OfPair(rows[i], e.agent, e.signal) && rows[i].observedAt == e.observedAt
  }

  /** INSERT ... ON CONFLICT(agent_id, signal_id, observed_at) DO NOTHING, under
      the foreign key on agent_id. */
  function AppendObservation(db: Db, e: Evidence): Option<Db> {
    if Recorded(db.rows, e) then Some(db)
    else if !Known(db.agents, e.agent) then None
    else
      var row := Row(db.lastId + 1, e.agent, e.signal, e.observedAt, e.value, e.provenance);
      Some(db.(rows := db.rows + [row], lastId := db.lastId + 1))
  }

  /** ORDER BY observed_at DESC, obs_id DESC. */
  predicate Newer(r: Row, q: Row) {
    Less(q.observedAt, r.observedAt) || (q.observedAt == r.observedAt && q.obsId < r.obsId)
  }

  /** The first row of the pair in that order. */
  function Latest(rows: seq<Row>, agent: string, signal: string): Option<Row> {
    if rows == [] then None
    else
      var best, r := Latest(rows[..|rows| - 1], agent, signal), rows[|rows| - 1];
      if OfPair(r, agent, signal) && (best.None? || Newer(r, best.value)) then Some(r) else best
  }

  function NewestEvidence(db: Db, agent: string, signal: string): Option<Evidence> {
    match Latest(db.rows, agent, signal)
    case None => None
    case Some(r) => Some(Evidence(r.agent, r.signal, r.observedAt, r.value, r.provenance))
  }

  const UNREADABLE_TIME := "sqlitestore: parse time"

  /** The row's time is parsed again, which can fail. */
  function ReadBack(e: Evidence): Result<Observation> {
    match ParseTime(e.observedAt)
    case None => Err(UNREADABLE_TIME)
    case Some(second) => Ok(Observation(e.agent, e.signal, second * NANOS_PER_SECOND, e.value, e.provenance))
  }

  /** What a reader makes of the row selected for it. */
  function ReadOf(newest: Option<Evidence>): Result<Option<Observation>> {
    match newest
    case None => Ok(None)
    case Some(e) =>
      match ReadBack(e)
      case Err(x) => Err(x)
      case Ok(o) => Ok(Some(o))
  }

  function LatestObservation(db: Db, agent: string, signal: string): Result<Option<Observation>> {
    ReadOf(NewestEvidence(db, agent, signal))
  }

  /** How many of the rows are newer than r in its own partition. */
  function NewerThan(rows: seq<Row>, r: Row): nat {
    if rows == [] then 0
    else
      var q := rows[|rows| - 1];
      NewerThan(rows[..|rows| - 1], r) + if OfPair(q, r.agent, r.signal) && Newer(q, r) then 1 else 0
  }

  /** ROW_NUMBER() OVER (PARTITION BY agent_id, signal_id ORDER BY ...). */
  function RowNumber(rows: seq<Row>, r: Row): nat {
    1 + NewerThan(rows, r)
  }

  /** The rows among `scan` whose row number within `rows` is at most keep. */
  function Retained(rows: seq<Row>, scan: seq<Row>, keep: int): seq<Row> {
    if scan == [] then []
    else
      var r := scan[|scan| - 1];
      Retained(rows, scan[..|scan| - 1], keep) + if RowNumber(rows, r) <= keep then [r] else []
  }

  function PruneObservations(db: Db, keep: int): Db {
    if keep <= 0 then db else db.(rows := Retained(db.rows, db.rows, keep))
  }

  // ----- transactions

  function UpsertAll(db: Db, batch: seq<Agent>): Option<Db> {
    if batch == [] then Some(db)
    else
      match UpsertAll(db, batch[..|batch| - 1])
      case None => None
      case Some(d) => UpsertAgent(d, batch[|batch| - 1])
  }

  /** The bound parameters of a batch: each time is printed before it is bound. */
  function StampAll(batch: seq<Observation>): (r: seq<Evidence>)
    ensures |r| == |batch| && forall i :: 0 <= i < |batch| ==> r[i] == Stamp(batch[i])
  {
    seq(|batch|, i requires 0 <= i < |batch| => Stamp(batch[i]))
  }

  function AppendAll(db: Db, batch: seq<Evidence>): Option<Db> {
    if batch == [] then Some(db)
    else
      match AppendAll(db, batch[..|batch| - 1])
      case None => None
      case Some(d) => AppendObservation(d, batch[|batch| - 1])
  }

  /** One call on the store.  `works` is false when the database itself fails
      (a begin, a commit, or the single prune statement); the transaction is
      then rolled back. */
  datatype Step =
    | Upsert(agents: seq<Agent>, works: bool)
    | Append(batch: seq<Observation>, works: bool)
    | Prune(keep: int, works: bool)

  predicate Commits(db: Db, step: Step) {
    match step
    case Upsert(agents, works) => works && UpsertAll(db, agents).Some?
    case Append(batch, works) => works && AppendAll(db, StampAll(batch)).Some?
    case Prune(_, works) => works
  }

  function Apply(db: Db, step: Step): Db {
    if !Commits(db, step) then db
    else
      match step
      case Upsert(agents, _) => UpsertAll(db, agents).value
      case Append(batch, _) => AppendAll(db, StampAll(batch)).value
      case Prune(keep, _) => PruneObservations(db, keep)
  }

  function Run(db: Db, steps: seq<Step>): Db {
    if steps == [] then db else Apply(Run(db, steps[..|steps| - 1]), steps[|steps| - 1])
  }

  /** The observations that committed batches submitted, oldest first.  It is
      the producers' log, not the table: refused duplicates and rows pruned
      since are all in it. */
  function Committed(db: Db, steps: seq<Step>): seq<Observation> {
    if steps == [] then []
    else
      var front, step := steps[..|steps| - 1], steps[|steps| - 1];
      Committed(db, front) +
      if step.Append? && Commits(Run(db, front), step) then step.batch else []
  }

  /** The agents that committed batches submitted, oldest first. */
  function CommittedAgents(db: Db, steps: seq<Step>): seq<Agent> {
    if steps == [] then []
    else
      var front, step := steps[..|steps| - 1], steps[|steps| - 1];
      CommittedAgents(db, front) +
      if step.Upsert? && Commits(Run(db, front), step) then step.agents else []
  }

  function WithoutPrunes(steps: seq<Step>): seq<Step> {
    if steps == [] then []
    else
      var front, step := steps[..|steps| - 1], steps[|steps| - 1];
      WithoutPrunes(front) + if step.Prune? then [] else [step]
  }
}
