/** The rows a compiled query yields: the join with the text index, the count,
    and the order of the list. */
module Listing {
  import opened Text
  import opened Domain
  import opened Tables
  import opened History
  import opened Fts
  import opened Filters

  /** The full-text engine: which rows match a query string, and their rank. */
  datatype Engine = Engine(matches: Matcher, rank: (string, FtsRow) -> int)

  /** JOIN agents_fts ON agents_fts.agent_id = agents.agent_id, for one agent. */
  function JoinedRows(a: Agent, fts: seq<FtsRow>, f: FilterSql, e: Engine): seq<Agent> {
    if fts == [] then []
    else
      var row := fts[|fts| - 1];
      JoinedRows(a, fts[..|fts| - 1], f, e) +
      if row.agentId == a.id && Satisfied(f.where, f.args, a, row, e.matches) then [a] else []
  }

  function RowsOf(a: Agent, db: Db, f: FilterSql, e: Engine): seq<Agent> {
    if f.joined then JoinedRows(a, db.fts, f, e)
    else if Satisfied(f.where, f.args, a, Indexed(a), e.matches) then [a] else []
  }

  /** The unordered result of the FROM, JOIN and WHERE parts. */
  function ResultRows(agents: seq<Agent>, db: Db, f: FilterSql, e: Engine): seq<Agent> {
    if agents == [] then []
    else ResultRows(agents[..|agents| - 1], db, f, e) + RowsOf(agents[|agents| - 1], db, f, e)
  }

  function Count(db: Db, q: SearchQuery, e: Engine): nat {
    |ResultRows(db.agents, db, Compiled(q), e)|
  }

  /** ORDER BY rank, agent_id for a text query, else by display_name, agent_id. */
  predicate Precedes(text: string, e: Engine, a: Agent, b: Agent) {
    if Fields(text) != [] then
      var ra, rb := e.rank(FtsMatch(text), Indexed(a)), e.rank(FtsMatch(text), Indexed(b));
      ra < rb || (ra == rb && Less(a.id, b.id))
    else
      Less(a.displayName, b.displayName) || (a.displayName == b.displayName && Less(a.id, b.id))
  }

  type Order = (Agent, Agent) -> bool

  function OrderBy(text: string, e: Engine): Order {
    (a, b) => Precedes(text, e, a, b)
  }

  function Insert(before: Order, a: Agent, s: seq<Agent>): seq<Agent> {
    if s == [] then [a]
    else if before(a, s[0]) then [a] + s
    else [s[0]] + Insert(before, a, s[1..])
  }

  function Ordered(before: Order, s: seq<Agent>): seq<Agent> {
    if s == [] then [] else Insert(before, s[|s| - 1], Ordered(before, s[..|s| - 1]))
  }

  /** The full list a query pages through. */
  function List(db: Db, q: SearchQuery, e: Engine): seq<Agent> {
    Ordered(OrderBy(q.text, e), ResultRows(db.agents, db, Compiled(q), e))
  }

  lemma {:induction false} JoinedRowsAreTheAgent(a: Agent, fts: seq<FtsRow>, f: FilterSql, e: Engine)
    ensures forall x :: x in JoinedRows(a, fts, f, e) ==> x == a
  {
    if fts != [] {
      JoinedRowsAreTheAgent(a, fts[..|fts| - 1], f, e);
    }
  }

  lemma {:induction false} ResultIsOfRows(agents: seq<Agent>, db: Db, f: FilterSql, e: Engine)
    ensures forall x :: x in ResultRows(agents, db, f, e) ==> x in agents
  {
    if agents != [] {
      var a := agents[|agents| - 1];
      ResultIsOfRows(agents[..|agents| - 1], db, f, e);
      JoinedRowsAreTheAgent(a, db.fts, f, e);
    }
  }

  /** A list shows rows of the table only. */
  lemma ListIsOfRows(db: Db, q: SearchQuery, e: Engine)
    ensures forall x :: x in List(db, q, e) ==> x in db.agents
  {
    var rows := ResultRows(db.agents, db, Compiled(q), e);
    ResultIsOfRows(db.agents, db, Compiled(q), e);
    OrderedMembers(OrderBy(q.text, e), rows);
    assert forall x :: x in List(db, q, e) ==> x in multiset(List(db, q, e));
    assert forall x :: x in multiset(rows) ==> x in rows;
  }

  // ----- the join neither duplicates nor loses

  function Selected(agents: seq<Agent>, q: SearchQuery, e: Engine): seq<Agent> {
    if agents == [] then []
    else
      var a := agents[|agents| - 1];
      Selected(agents[..|agents| - 1], q, e) + if Selects(q, a, Indexed(a), e.matches) then [a] else []
  }

  /** Joining with rows of which exactly one, `own`, is the agent's. */
  lemma {:induction false} JoinsOnce(a: Agent, fts: seq<FtsRow>, f: FilterSql, e: Engine, k: int)
    requires forall i :: 0 <= i < |fts| && i != k ==> fts[i].agentId != a.id
    requires 0 <= k < |fts| ==> fts[k].agentId == a.id
    ensures JoinedRows(a, fts, f, e) ==
      if 0 <= k < |fts| && Satisfied(f.where, f.args, a, fts[k], e.matches) then [a] else []
  {
    if fts != [] {
      JoinsOnce(a, fts[..|fts| - 1], f, e, k);
    }
  }

  lemma {:induction false} ResultIsSelection(agents: seq<Agent>, db: Db, q: SearchQuery, e: Engine)
    requires Mirrored(db) && agents <= db.agents
    ensures ResultRows(agents, db, Compiled(q), e) == Selected(agents, q, e)
  {
    if agents != [] {
      var k := |agents| - 1;
      var a, f := agents[k], Compiled(q);
      ResultIsSelection(agents[..k], db, q, e);
      CompilationPreservesMeaning(q, a, Indexed(a), e.matches);
      assert db.agents[k] == a && db.fts[k] == Indexed(a);
      if f.joined {
        forall i | 0 <= i < |db.fts| && i != k
          ensures db.fts[i].agentId != a.id
        {
          assert db.agents[i].id != db.agents[k].id;
        }
        JoinsOnce(a, db.fts, f, e, k);
      }
    }
  }

  lemma {:induction false} SelectedMembers(agents: seq<Agent>, q: SearchQuery, e: Engine)
    ensures forall a :: a in Selected(agents, q, e) <==> a in agents && Selects(q, a, Indexed(a), e.matches)
  {
    if agents != [] {
      var front, a := agents[..|agents| - 1], agents[|agents| - 1];
      SelectedMembers(front, q, e);
      assert agents == front + [a];
    }
  }

  lemma {:induction false} SelectedDistinct(agents: seq<Agent>, q: SearchQuery, e: Engine)
    requires History.DistinctIds(agents)
    ensures History.DistinctIds(Selected(agents, q, e))
  {
    if agents != [] {
      var front, a := agents[..|agents| - 1], agents[|agents| - 1];
      SelectedDistinct(front, q, e);
      SelectedMembers(front, q, e);
      var s := Selected(front, q, e);
      forall i | 0 <= i < |s|
        ensures s[i].id != a.id
      {
        assert s[i] in front;
        var j :| 0 <= j < |front| && front[j] == s[i];
        assert agents[j].id != agents[|agents| - 1].id;
      }
      DistinctSnoc(s, a);
      assert Selected(agents, q, e) == s || Selected(agents, q, e) == s + [a];
    }
  }

  lemma DistinctSnoc(s: seq<Agent>, a: Agent)
    requires History.DistinctIds(s) && forall i :: 0 <= i < |s| ==> s[i].id != a.id
    ensures History.DistinctIds(s + [a])
  {
  }

  // ----- the order

  predicate InOrder(before: Order, s: seq<Agent>) {
    forall i, j :: 0 <= i < j < |s| ==> before(s[i], s[j])
  }

  /** Total on agents with different ids, and transitive. */
  ghost predicate Orders(before: Order) {
    && (forall a: Agent, b: Agent :: a.id != b.id ==> before(a, b) || before(b, a))
    && (forall a, b, c :: before(a, b) && before(b, c) ==> before(a, c))
  }

  lemma PrecedesOrders(text: string, e: Engine)
    ensures Orders(OrderBy(text, e))
  {
    var before := OrderBy(text, e);
    forall a: Agent, b: Agent | a.id != b.id
      ensures before(a, b) || before(b, a)
    {
      LessTotal(a.id, b.id);
      LessTotal(a.displayName, b.displayName);
    }
    forall a, b, c | before(a, b) && before(b, c)
      ensures before(a, c)
    {
      PrecedesIsTransitive(text, e, a, b, c);
    }
  }

  lemma PrecedesIsTransitive(text: string, e: Engine, a: Agent, b: Agent, c: Agent)
    requires Precedes(text, e, a, b) && Precedes(text, e, b, c)
    ensures Precedes(text, e, a, c)
  {
    if Less(a.id, b.id) && Less(b.id, c.id) {
      LessTransitive(a.id, b.id, c.id);
    }
    if Less(a.displayName, b.displayName) && Less(b.displayName, c.displayName) {
      LessTransitive(a.displayName, b.displayName, c.displayName);
    }
  }

  lemma {:induction false} InsertMembers(before: Order, a: Agent, s: seq<Agent>)
    ensures multiset(Insert(before, a, s)) == multiset(s) + multiset{a}
  {
    if s != [] && !before(a, s[0]) {
      var rest := Insert(before, a, s[1..]);
      InsertMembers(before, a, s[1..]);
      assert multiset(s) == multiset{s[0]} + multiset(s[1..]) by {
        assert s == [s[0]] + s[1..];
      }
      assert multiset([s[0]] + rest) == multiset{s[0]} + multiset(rest);
    }
  }

  lemma {:induction false} OrderedMembers(before: Order, s: seq<Agent>)
    ensures multiset(Ordered(before, s)) == multiset(s)
  {
    if s != [] {
      var front, a := s[..|s| - 1], s[|s| - 1];
      OrderedMembers(before, front);
      InsertMembers(before, a, Ordered(before, front));
      assert s == front + [a];
    }
  }

  lemma InMultiset(s: seq<Agent>, t: seq<Agent>, extra: multiset<Agent>, x: Agent)
    requires multiset(t) == multiset(s) + extra && x in t && x !in extra
    ensures x in s
  {
    assert x in multiset(t);
    assert x in multiset(s);
  }

  lemma {:induction false} InsertKeepsOrder(before: Order, a: Agent, s: seq<Agent>)
    requires Orders(before) && InOrder(before, s) && forall i :: 0 <= i < |s| ==> s[i].id != a.id
    ensures InOrder(before, Insert(before, a, s))
  {
    if s != [] && !before(a, s[0]) {
      var rest := Insert(before, a, s[1..]);
      InsertKeepsOrder(before, a, s[1..]);
      InsertMembers(before, a, s[1..]);
      forall j | 0 <= j < |rest|
        ensures before(s[0], rest[j])
      {
        if rest[j] != a {
          InMultiset(s[1..], rest, multiset{a}, rest[j]);
          var i :| 0 <= i < |s| - 1 && s[1..][i] == rest[j];
          assert s[i + 1] == rest[j];
        }
      }
    }
  }

  lemma {:induction false} OrderedIsSorted(before: Order, s: seq<Agent>)
    requires Orders(before) && History.DistinctIds(s)
    ensures InOrder(before, Ordered(before, s))
  {
    if s != [] {
      var front, a := s[..|s| - 1], s[|s| - 1];
      OrderedIsSorted(before, front);
      OrderedMembers(before, front);
      var t := Ordered(before, front);
      forall i | 0 <= i < |t|
        ensures t[i].id != a.id
      {
        InMultiset(front, t, multiset{}, t[i]);
        var j :| 0 <= j < |front| && front[j] == t[i];
        assert s[j].id != s[|s| - 1].id;
      }
      InsertKeepsOrder(before, a, t);
    }
  }

  /** For every run of the store: the list holds exactly the agents the query
      selects, each once, in the documented order, and the count agrees. */
  lemma ListIsTheSelection(steps: seq<Step>, q: SearchQuery, e: Engine)
    ensures
      var db := Run(EMPTY, steps);
      var list := List(db, q, e);
      && (forall a :: a in list <==> a in db.agents && Selects(q, a, Indexed(a), e.matches))
      && InOrder(OrderBy(q.text, e), list)
      && (forall i, j :: 0 <= i < j < |list| ==> list[i] != list[j])
      && |list| == Count(db, q, e)
  {
    var db := Run(EMPTY, steps);
    var rows, list := ResultRows(db.agents, db, Compiled(q), e), List(db, q, e);
    RunConsistent(steps);
    ResultIsSelection(db.agents, db, q, e);
    SelectedMembers(db.agents, q, e);
    SelectedDistinct(db.agents, q, e);
    PrecedesOrders(q.text, e);
    OrderedIsSorted(OrderBy(q.text, e), rows);
    OrderedMembers(OrderBy(q.text, e), rows);
    assert |multiset(list)| == |list| && |multiset(rows)| == |rows|;
    assert forall a :: a in list <==> a in multiset(list);
    assert forall a :: a in rows <==> a in multiset(rows);
    forall i, j | 0 <= i < j < |list|
      ensures list[i] != list[j]
    {
      NeverItself(q.text, e, list[i]);
      assert OrderBy(q.text, e)(list[i], list[j]);
    }
  }

  lemma NeverItself(text: string, e: Engine, a: Agent)
    ensures !Precedes(text, e, a, a)
  {
    LessIrreflexive(a.id);
    LessIrreflexive(a.displayName);
  }
}
