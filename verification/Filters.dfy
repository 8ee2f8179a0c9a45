/** A structured query compiled to SQL clauses with positional arguments. */
module Filters {
  import opened Text
  import opened Decimal
  import opened Domain
  import opened Tables
  import opened Like
  import opened Fts

  const MAX_FILTER_ENTRIES := 100
  const MAX_VARIABLES := 999

  datatype SearchQuery = SearchQuery(
    text: string, providerIds: seq<string>, statuses: seq<string>, agentDomains: seq<string>,
    protocols: seq<string>, transports: seq<string>, tags: seq<string>, capabilities: seq<string>,
    page: GoInt, pageSize: GoInt, pageToken: string, pageTokenDirection: string, totalRequired: bool)

  datatype Column = Status | ProviderId | Protocols | Transports | Tags | Capabilities

  /** A WHERE clause and how many placeholders it carries. */
  datatype Clause = Match | In(column: Column, n: nat) | JsonAny(column: Column, n: nat) | AnyDomain(n: nat)

  datatype FilterSql = FilterSql(where: seq<Clause>, args: seq<string>, joined: bool)

  // ----- the SQL text

  function ColumnName(c: Column): string {
    match c
    case Status => "agents.status"
    case ProviderId => "agents.provider_id"
    case Protocols => "agents.protocols"
    case Transports => "agents.transports"
    case Tags => "agents.tags"
    case Capabilities => "agents.capabilities"
  }

  /** n copies of a part with a separator between them. */
  function Repeated(part: string, sep: string, n: nat): string {
    if n == 0 then "" else if n == 1 then part else Repeated(part, sep, n - 1) + sep + part
  }

  function Sql(c: Clause): string {
    match c
    case Match => "agents_fts MATCH ?"
    case In(col, n) => ColumnName(col) + " IN (" + Repeated("?", ",", n) + ")"
    case JsonAny(col, n) =>
      "EXISTS (SELECT 1 FROM json_each(" + ColumnName(col) + ") je WHERE je.value IN (" + Repeated("?", ",", n) + "))"
    case AnyDomain(n) => "(" + Repeated("agents.dns_name LIKE ? ESCAPE '\\'", " OR ", n) + ")"
  }

  function WhereText(where: seq<Clause>): string {
    if where == [] then ""
    else if |where| == 1 then Sql(where[0])
    else WhereText(where[..|where| - 1]) + " AND " + Sql(where[|where| - 1])
  }

  function Placeholders(s: string): nat {
    if s == "" then 0 else Placeholders(s[..|s| - 1]) + if s[|s| - 1] == '?' then 1 else 0
  }

  /** The SQL of each clause, with the names of the columns it reads. */
  lemma SqlMeans(n: nat)
    ensures Sql(Match) == "agents_fts MATCH ?"
    ensures Sql(In(Status, n)) == "agents.status" + " IN (" + Repeated("?", ",", n) + ")"
    ensures Sql(In(ProviderId, n)) == "agents.provider_id" + " IN (" + Repeated("?", ",", n) + ")"
    ensures
      var each := (column: string) =>
        "EXISTS (SELECT 1 FROM json_each(" + column + ") je WHERE je.value IN (" + Repeated("?", ",", n) + "))";
      && Sql(JsonAny(Protocols, n)) == each("agents.protocols") && Sql(JsonAny(Transports, n)) == each("agents.transports")
      && Sql(JsonAny(Tags, n)) == each("agents.tags") && Sql(JsonAny(Capabilities, n)) == each("agents.capabilities")
    ensures Sql(AnyDomain(n)) == "(" + Repeated("agents.dns_name LIKE ? ESCAPE '\\'", " OR ", n) + ")"
  {
  }

  lemma {:induction false} RepeatedMarks(n: nat)
    ensures |Repeated("?", ",", n)| == if n == 0 then 0 else 2 * n - 1
    ensures forall i :: 0 <= i < |Repeated("?", ",", n)| ==> Repeated("?", ",", n)[i] == if i % 2 == 0 then '?' else ','
  {
    if n > 1 {
      RepeatedMarks(n - 1);
    }
  }

  lemma WhereMeans(front: seq<Clause>, c: Clause)
    ensures WhereText([]) == "" && WhereText([c]) == Sql(c)
    ensures front != [] ==> WhereText(front + [c]) == WhereText(front) + " AND " + Sql(c)
  {
    assert (front + [c])[..|front|] == front;
  }

  // ----- compilation

  function Arity(c: Clause): nat {
    match c
    case Match => 1
    case In(_, n) => n
    case JsonAny(_, n) => n
    case AnyDomain(n) => n
  }

  function TotalArity(where: seq<Clause>): nat {
    if where == [] then 0 else TotalArity(where[..|where| - 1]) + Arity(where[|where| - 1])
  }

  function Patterns(domains: seq<string>): (r: seq<string>)
    ensures |r| == |domains| && forall i :: 0 <= i < |r| ==> r[i] == ContainsPattern(domains[i])
  {
    seq(|domains|, i requires 0 <= i < |domains| => ContainsPattern(domains[i]))
  }

  /** domainClause: one LIKE per value, patterns collected alongside. */
  method DomainClause(domains: seq<string>) returns (clause: Option<Clause>, args: seq<string>)
    ensures clause == if domains == [] then None else Some(AnyDomain(|domains|))
    ensures args == Patterns(domains)
  {
    args := [];
    var parts := 0;
    for i := 0 to |domains|
      invariant parts == i && args == Patterns(domains)[..i]
    {
      parts := parts + 1;
      args := args + [ContainsPattern(domains[i])];
    }
    clause := if domains == [] then None else Some(AnyDomain(parts));
  }

  function Added(f: FilterSql, clause: Clause, args: seq<string>): FilterSql {
    if args == [] then f else f.(where := f.where + [clause], args := f.args + args)
  }

  function TextFilter(text: string): FilterSql {
    var m := FtsMatch(text);
    if m == "" then FilterSql([], [], false) else FilterSql([Match], [m], true)
  }

  function ScalarFilters(f: FilterSql, q: SearchQuery): FilterSql {
    Added(Added(f, In(Status, |q.statuses|), q.statuses), In(ProviderId, |q.providerIds|), q.providerIds)
  }

  function EndpointFilters(f: FilterSql, q: SearchQuery): FilterSql {
    Added(Added(f, JsonAny(Protocols, |q.protocols|), q.protocols), JsonAny(Transports, |q.transports|), q.transports)
  }

  function LabelFilters(f: FilterSql, q: SearchQuery): FilterSql {
    Added(Added(f, JsonAny(Tags, |q.tags|), q.tags), JsonAny(Capabilities, |q.capabilities|), q.capabilities)
  }

  function DomainFilter(f: FilterSql, q: SearchQuery): FilterSql {
    Added(f, AnyDomain(|q.agentDomains|), Patterns(q.agentDomains))
  }

  /** The clauses in the order they are appended. */
  function Compiled(q: SearchQuery): FilterSql {
    DomainFilter(LabelFilters(EndpointFilters(ScalarFilters(TextFilter(q.text), q), q), q), q)
  }

  method BuildFilters(q: SearchQuery) returns (f: FilterSql)
    ensures f == Compiled(q)
  {
    f := FilterSql([], [], false);
    var m := FtsMatch(q.text);
    if m != "" {
      f := FilterSql([Match], [m], true);
    }
    ghost var f0 := f;
    assert f0 == TextFilter(q.text);
    f := AddClause(f, In(Status, |q.statuses|), q.statuses);
    f := AddClause(f, In(ProviderId, |q.providerIds|), q.providerIds);
    ghost var f1 := f;
    assert f1 == ScalarFilters(f0, q);
    f := AddClause(f, JsonAny(Protocols, |q.protocols|), q.protocols);
    f := AddClause(f, JsonAny(Transports, |q.transports|), q.transports);
    ghost var f2 := f;
    assert f2 == EndpointFilters(f1, q);
    f := AddClause(f, JsonAny(Tags, |q.tags|), q.tags);
    f := AddClause(f, JsonAny(Capabilities, |q.capabilities|), q.capabilities);
    ghost var f3 := f;
    assert f3 == LabelFilters(f2, q);
    var clause, patterns := DomainClause(q.agentDomains);
    if clause.Some? {
      f := f.(where := f.where + [clause.value], args := f.args + patterns);
    }
    assert f == DomainFilter(f3, q);
  }

  method AddClause(f0: FilterSql, clause: Clause, args: seq<string>) returns (f: FilterSql)
    ensures f == Added(f0, clause, args)
  {
    f := f0;
    if args != [] {
      f := f.(where := f.where + [clause], args := f.args + args);
    }
  }

  // ----- the meaning of compiled clauses

  /** The full-text matcher: a query string and an index row to a verdict. */
  type Matcher = (string, FtsRow) -> bool

  function ScalarOf(a: Agent, c: Column): string {
    if c == Status then a.status else if c == ProviderId then a.providerId else ""
  }

  function ArrayOf(a: Agent, c: Column): seq<string> {
    match c
    case Protocols => a.protocols
    case Transports => a.transports
    case Tags => a.tags
    case Capabilities => a.capabilities
    case _ => []
  }

  predicate Overlap(xs: seq<string>, ys: seq<string>) {
    exists v :: v in xs && v in ys
  }

  predicate AnyHit(domains: seq<string>, dnsName: string) {
    exists d :: d in domains && Hit(d, dnsName)
  }

  predicate AnyOccurs(domains: seq<string>, dnsName: string) {
    exists d :: d in domains && Occurs(d, dnsName)
  }

  /** A clause whose placeholders are bound to the given arguments. */
  predicate Holds(c: Clause, args: seq<string>, a: Agent, row: FtsRow, fts: Matcher)
    requires |args| == Arity(c)
  {
    match c
    case Match => fts(args[0], row)
    case In(col, _) => ScalarOf(a, col) in args
    case JsonAny(col, _) => Overlap(ArrayOf(a, col), args)
    case AnyDomain(_) => exists i :: 0 <= i < |args| && IsLike(args[i], a.dnsName)
  }

  /** The conjunction, with arguments bound from left to right: all of them must
      be used up. */
  predicate Satisfied(where: seq<Clause>, args: seq<string>, a: Agent, row: FtsRow, fts: Matcher) {
    if where == [] then args == []
    else
      var n := Arity(where[0]);
      n <= |args| && Holds(where[0], args[..n], a, row, fts) && Satisfied(where[1..], args[n..], a, row, fts)
  }

  predicate Constrains(filter: seq<string>, holds: bool) {
    filter == [] || holds
  }

  predicate SelectsScalars(q: SearchQuery, a: Agent) {
    && Constrains(q.statuses, a.status in q.statuses)
    && Constrains(q.providerIds, a.providerId in q.providerIds)
  }

  predicate SelectsEndpoints(q: SearchQuery, a: Agent) {
    && Constrains(q.protocols, Overlap(a.protocols, q.protocols))
    && Constrains(q.transports, Overlap(a.transports, q.transports))
  }

  predicate SelectsLabels(q: SearchQuery, a: Agent) {
    && Constrains(q.tags, Overlap(a.tags, q.tags))
    && Constrains(q.capabilities, Overlap(a.capabilities, q.capabilities))
  }

  /** The query as a plain conjunction; an empty filter does not constrain, and a
      domain is looked for as LIKE reads it. */
  predicate Selects(q: SearchQuery, a: Agent, row: FtsRow, fts: Matcher) {
    && (Fields(q.text) == [] || fts(FtsMatch(q.text), row))
    && SelectsScalars(q, a) && SelectsEndpoints(q, a) && SelectsLabels(q, a)
    && Constrains(q.agentDomains, AnyHit(q.agentDomains, a.dnsName))
  }

  /** The same with every domain taken literally. */
  predicate SelectsLiterally(q: SearchQuery, a: Agent, row: FtsRow, fts: Matcher) {
    && (Fields(q.text) == [] || fts(FtsMatch(q.text), row))
    && SelectsScalars(q, a) && SelectsEndpoints(q, a) && SelectsLabels(q, a)
    && Constrains(q.agentDomains, AnyOccurs(q.agentDomains, a.dnsName))
  }

  lemma {:induction false} SatisfiedSnoc(where: seq<Clause>, args: seq<string>, c: Clause, more: seq<string>,
                                         a: Agent, row: FtsRow, fts: Matcher)
    requires |more| == Arity(c) && |args| == TotalArity(where)
    ensures Satisfied(where + [c], args + more, a, row, fts)
       <==> Satisfied(where, args, a, row, fts) && Holds(c, more, a, row, fts)
  {
    if where == [] {
      assert where + [c] == [c] && args + more == more && more[..Arity(c)] == more && more[Arity(c)..] == [] && [c][1..] == [];
    } else {
      var n := Arity(where[0]);
      ArityHead(where);
      assert (where + [c])[1..] == where[1..] + [c];
      assert (args + more)[..n] == args[..n] && (args + more)[n..] == args[n..] + more;
      SatisfiedSnoc(where[1..], args[n..], c, more, a, row, fts);
    }
  }

  lemma {:induction false} ArityHead(where: seq<Clause>)
    requires where != []
    ensures TotalArity(where) == Arity(where[0]) + TotalArity(where[1..])
  {
    if |where| == 1 {
      assert where[..0] == [] && where[1..] == [];
    } else {
      var front := where[..|where| - 1];
      ArityHead(front);
      assert front[1..] == where[1..][..|where| - 2];
    }
  }

  /** One appended filter conjoins its own meaning. */
  lemma AddedMeans(f: FilterSql, c: Clause, args: seq<string>, a: Agent, row: FtsRow, fts: Matcher)
    requires |args| == Arity(c) && |f.args| == TotalArity(f.where)
    ensures |Added(f, c, args).args| == TotalArity(Added(f, c, args).where) == |f.args| + |args|
    ensures Satisfied(Added(f, c, args).where, Added(f, c, args).args, a, row, fts)
       <==> Satisfied(f.where, f.args, a, row, fts) && (args == [] || Holds(c, args, a, row, fts))
  {
    if args != [] {
      SatisfiedSnoc(f.where, f.args, c, args, a, row, fts);
      assert (f.where + [c])[..|f.where|] == f.where;
    }
  }

  lemma DomainsMean(domains: seq<string>, a: Agent, row: FtsRow, fts: Matcher)
    ensures Holds(AnyDomain(|domains|), Patterns(domains), a, row, fts) <==> AnyHit(domains, a.dnsName)
  {
    forall i | 0 <= i < |domains|
      ensures IsLike(Patterns(domains)[i], a.dnsName) <==> Hit(domains[i], a.dnsName)
    {
      ContainsPatternExactly(domains[i], a.dnsName);
    }
    if d :| d in domains && Hit(d, a.dnsName) {
      var i :| 0 <= i < |domains| && domains[i] == d;
      assert IsLike(Patterns(domains)[i], a.dnsName);
    }
  }

  // ----- when domains are taken literally

  /** What is left of any value with U+0000 already contains a whole value. */
  predicate Covered(domains: seq<string>) {
    forall d :: d in domains && !NulFree(d) ==> AnyWhole(domains, CString(d))
  }

  predicate AnyWhole(domains: seq<string>, text: string) {
    exists w :: w in domains && NulFree(w) && Occurs(w, text)
  }

  lemma HitsAreLiteral(domains: seq<string>, s: string)
    requires Covered(domains) && NulFree(s)
    ensures AnyHit(domains, s) <==> AnyOccurs(domains, s)
  {
    if d :| d in domains && Hit(d, s) {
      if !NulFree(d) {
        var w :| w in domains && NulFree(w) && Occurs(w, CString(d));
        OccursInEnding(w, CString(d), s);
      }
    }
    if d :| d in domains && Occurs(d, s) {
      OccursNulFree(d, s);
      assert Hit(d, s);
    }
  }

  /** A domain filter means what it says on all names without U+0000 exactly when
      every value that holds one is made redundant by another value. */
  lemma DomainsAreLiteralExactly(domains: seq<string>)
    ensures (forall s :: NulFree(s) ==> (AnyHit(domains, s) <==> AnyOccurs(domains, s))) <==> Covered(domains)
  {
    if Covered(domains) {
      forall s | NulFree(s)
        ensures AnyHit(domains, s) <==> AnyOccurs(domains, s)
      {
        HitsAreLiteral(domains, s);
      }
    } else {
      var d :| d in domains && !NulFree(d) && !AnyWhole(domains, CString(d));
      UncoveredHits(domains, d);
    }
  }

  lemma UncoveredHits(domains: seq<string>, d: string)
    requires d in domains && !NulFree(d) && !AnyWhole(domains, CString(d))
    ensures AnyHit(domains, CString(d)) && !AnyOccurs(domains, CString(d))
  {
    EndsWithItself(CString(d));
    assert Hit(d, CString(d));
    forall w | w in domains
      ensures !Occurs(w, CString(d))
    {
      if Occurs(w, CString(d)) {
        OccursNulFree(w, CString(d));
      }
    }
  }

  /** The compiled query is the plain literal conjunction for every agent whose name
      holds no U+0000, as soon as the domain filter means what it says. */
  lemma SelectionIsLiteral(q: SearchQuery, a: Agent, row: FtsRow, fts: Matcher)
    requires Covered(q.agentDomains) && NulFree(a.dnsName)
    ensures Selects(q, a, row, fts) <==> SelectsLiterally(q, a, row, fts)
  {
    HitsAreLiteral(q.agentDomains, a.dnsName);
  }

  /** A filter list whose arguments fit its clauses and that means the given. */
  predicate Means(f: FilterSql, meaning: bool, args: nat, a: Agent, row: FtsRow, fts: Matcher) {
    && |f.args| == TotalArity(f.where) == args
    && (Satisfied(f.where, f.args, a, row, fts) <==> meaning)
  }

  lemma TextMeans(q: SearchQuery, a: Agent, row: FtsRow, fts: Matcher)
    ensures Means(TextFilter(q.text), Fields(q.text) == [] || fts(FtsMatch(q.text), row),
                  if Fields(q.text) == [] then 0 else 1, a, row, fts)
    ensures TextFilter(q.text).joined <==> Fields(q.text) != []
  {
    FtsReadsTheFields(q.text);
    var m := FtsMatch(q.text);
    assert [Match][..0] == [] && [Match][1..] == [] && [m][..1] == [m] && [m][1..] == [];
  }

  lemma Conjoins(f: FilterSql, meaning: bool, args: nat, c: Clause, vals: seq<string>, a: Agent, row: FtsRow, fts: Matcher)
    requires Means(f, meaning, args, a, row, fts) && |vals| == Arity(c)
    ensures Means(Added(f, c, vals), meaning && Constrains(vals, Holds(c, vals, a, row, fts)), args + |vals|, a, row, fts)
    ensures Added(f, c, vals).joined == f.joined
  {
    AddedMeans(f, c, vals, a, row, fts);
  }

  lemma ConjoinsTwo(f: FilterSql, meaning: bool, args: nat, c: Clause, vals: seq<string>, d: Clause, more: seq<string>,
                    a: Agent, row: FtsRow, fts: Matcher)
    requires Means(f, meaning, args, a, row, fts) && |vals| == Arity(c) && |more| == Arity(d)
    ensures
      var both := Constrains(vals, Holds(c, vals, a, row, fts)) && Constrains(more, Holds(d, more, a, row, fts));
      Means(Added(Added(f, c, vals), d, more), meaning && both, args + |vals| + |more|, a, row, fts)
    ensures Added(Added(f, c, vals), d, more).joined == f.joined
  {
    Conjoins(f, meaning, args, c, vals, a, row, fts);
    Conjoins(Added(f, c, vals), meaning && Constrains(vals, Holds(c, vals, a, row, fts)), args + |vals|, d, more, a, row, fts);
  }

  lemma ScalarsMean(f: FilterSql, meaning: bool, args: nat, q: SearchQuery, a: Agent, row: FtsRow, fts: Matcher)
    requires Means(f, meaning, args, a, row, fts)
    ensures Means(ScalarFilters(f, q), meaning && SelectsScalars(q, a), args + |q.statuses| + |q.providerIds|, a, row, fts)
    ensures ScalarFilters(f, q).joined == f.joined
  {
    ConjoinsTwo(f, meaning, args, In(Status, |q.statuses|), q.statuses, In(ProviderId, |q.providerIds|), q.providerIds, a, row, fts);
  }

  lemma EndpointsMean(f: FilterSql, meaning: bool, args: nat, q: SearchQuery, a: Agent, row: FtsRow, fts: Matcher)
    requires Means(f, meaning, args, a, row, fts)
    ensures Means(EndpointFilters(f, q), meaning && SelectsEndpoints(q, a), args + |q.protocols| + |q.transports|, a, row, fts)
    ensures EndpointFilters(f, q).joined == f.joined
  {
    ConjoinsTwo(f, meaning, args, JsonAny(Protocols, |q.protocols|), q.protocols,
                JsonAny(Transports, |q.transports|), q.transports, a, row, fts);
  }

  lemma LabelsMean(f: FilterSql, meaning: bool, args: nat, q: SearchQuery, a: Agent, row: FtsRow, fts: Matcher)
    requires Means(f, meaning, args, a, row, fts)
    ensures Means(LabelFilters(f, q), meaning && SelectsLabels(q, a), args + |q.tags| + |q.capabilities|, a, row, fts)
    ensures LabelFilters(f, q).joined == f.joined
  {
    ConjoinsTwo(f, meaning, args, JsonAny(Tags, |q.tags|), q.tags,
                JsonAny(Capabilities, |q.capabilities|), q.capabilities, a, row, fts);
  }

  lemma DomainFilterMeans(f: FilterSql, meaning: bool, args: nat, q: SearchQuery, a: Agent, row: FtsRow, fts: Matcher)
    requires Means(f, meaning, args, a, row, fts)
    ensures Means(DomainFilter(f, q), meaning && Constrains(q.agentDomains, AnyHit(q.agentDomains, a.dnsName)),
                  args + |q.agentDomains|, a, row, fts)
    ensures DomainFilter(f, q).joined == f.joined
  {
    DomainsMean(q.agentDomains, a, row, fts);
    Conjoins(f, meaning, args, AnyDomain(|q.agentDomains|), Patterns(q.agentDomains), a, row, fts);
  }

  function Size(q: SearchQuery): nat {
    (if Fields(q.text) == [] then 0 else 1) + |q.statuses| + |q.providerIds| + |q.protocols| + |q.transports|
    + |q.tags| + |q.capabilities| + |q.agentDomains|
  }

  /** The compiled clauses, bound left to right, accept an agent exactly when the
      query selects it, and there is one argument per filter entry. */
  lemma CompilationPreservesMeaning(q: SearchQuery, a: Agent, row: FtsRow, fts: Matcher)
    ensures Satisfied(Compiled(q).where, Compiled(q).args, a, row, fts) <==> Selects(q, a, row, fts)
    ensures |Compiled(q).args| == TotalArity(Compiled(q).where) == Size(q)
    ensures Compiled(q).joined <==> Fields(q.text) != []
  {
    TextMeans(q, a, row, fts);
    var f0 := TextFilter(q.text);
    var m0 := Fields(q.text) == [] || fts(FtsMatch(q.text), row);
    var n0 := if Fields(q.text) == [] then 0 else 1;
    ScalarsMean(f0, m0, n0, q, a, row, fts);
    var f1, m1, n1 := ScalarFilters(f0, q), m0 && SelectsScalars(q, a), n0 + |q.statuses| + |q.providerIds|;
    EndpointsMean(f1, m1, n1, q, a, row, fts);
    var f2, m2, n2 := EndpointFilters(f1, q), m1 && SelectsEndpoints(q, a), n1 + |q.protocols| + |q.transports|;
    LabelsMean(f2, m2, n2, q, a, row, fts);
    var f3, m3, n3 := LabelFilters(f2, q), m2 && SelectsLabels(q, a), n2 + |q.tags| + |q.capabilities|;
    DomainFilterMeans(f3, m3, n3, q, a, row, fts);
  }

  // ----- placeholders

  lemma {:induction false} PlaceholdersConcat(a: string, b: string)
    ensures Placeholders(a + b) == Placeholders(a) + Placeholders(b)
  {
    if b == "" {
      assert a + b == a;
    } else {
      assert (a + b)[..|a + b| - 1] == a + b[..|b| - 1];
      PlaceholdersConcat(a, b[..|b| - 1]);
    }
  }

  predicate Fixed(s: string) {
    forall i :: 0 <= i < |s| ==> s[i] != '?'
  }

  lemma {:induction false} FixedHasNone(s: string)
    requires Fixed(s)
    ensures Placeholders(s) == 0
  {
    if s != "" {
      FixedHasNone(s[..|s| - 1]);
    }
  }

  lemma {:induction false} RepeatedPlaceholders(part: string, sep: string, n: nat)
    requires Placeholders(part) == 1 && Placeholders(sep) == 0
    ensures Placeholders(Repeated(part, sep, n)) == n
  {
    if n > 1 {
      RepeatedPlaceholders(part, sep, n - 1);
      PlaceholdersConcat(Repeated(part, sep, n - 1) + sep, part);
      PlaceholdersConcat(Repeated(part, sep, n - 1), sep);
    }
  }

  lemma ColumnNamesAreFixed(c: Column)
    ensures Placeholders(ColumnName(c)) == 0
  {
    FixedHasNone(ColumnName(c));
  }

  lemma Framed(head: string, body: string, tail: string)
    requires Fixed(head) && Fixed(tail)
    ensures Placeholders(head + body + tail) == Placeholders(body)
  {
    FixedHasNone(head);
    FixedHasNone(tail);
    PlaceholdersConcat(head + body, tail);
    PlaceholdersConcat(head, body);
  }

  lemma LikePartHasOne()
    ensures Placeholders("agents.dns_name LIKE ? ESCAPE '\\'") == 1
  {
    Framed("agents.dns_name LIKE ", "?", " ESCAPE '\\'");
    assert "?"[..0] == "";
    assert "agents.dns_name LIKE " + "?" + " ESCAPE '\\'" == "agents.dns_name LIKE ? ESCAPE '\\'";
  }

  lemma InPlaceholders(n: nat)
    ensures Placeholders(Repeated("?", ",", n)) == n
  {
    assert "?"[..0] == "" && Placeholders("?") == 1;
    FixedHasNone(",");
    RepeatedPlaceholders("?", ",", n);
  }

  /** Fixed text around a column name, then n placeholders, then fixed text. */
  lemma ListPlaceholders(head: string, col: Column, middle: string, n: nat, tail: string)
    requires Fixed(head) && Fixed(middle) && Fixed(tail)
    ensures Placeholders(head + ColumnName(col) + middle + Repeated("?", ",", n) + tail) == n
  {
    InPlaceholders(n);
    ColumnNamesAreFixed(col);
    Framed(head, ColumnName(col), middle);
    FixedHasNone(tail);
    var left := head + ColumnName(col) + middle;
    PlaceholdersConcat(left + Repeated("?", ",", n), tail);
    PlaceholdersConcat(left, Repeated("?", ",", n));
  }

  lemma MatchPlaceholders()
    ensures Placeholders(Sql(Match)) == 1
  {
    Framed("agents_fts MATCH ", "?", "");
    assert "?"[..0] == "";
    assert "agents_fts MATCH " + "?" + "" == "agents_fts MATCH ?";
  }

  lemma DomainPlaceholders(n: nat)
    ensures Placeholders(Sql(AnyDomain(n))) == n
  {
    LikePartHasOne();
    FixedHasNone(" OR ");
    RepeatedPlaceholders("agents.dns_name LIKE ? ESCAPE '\\'", " OR ", n);
    Framed("(", Repeated("agents.dns_name LIKE ? ESCAPE '\\'", " OR ", n), ")");
  }

  lemma ClausePlaceholders(c: Clause)
    ensures Placeholders(Sql(c)) == Arity(c)
  {
    match c {
      case Match => MatchPlaceholders();
      case In(col, n) =>
        ListPlaceholders("", col, " IN (", n, ")");
        assert "" + ColumnName(col) == ColumnName(col);
      case JsonAny(col, n) =>
        ListPlaceholders("EXISTS (SELECT 1 FROM json_each(", col, ") je WHERE je.value IN (", n, "))");
      case AnyDomain(n) => DomainPlaceholders(n);
    }
  }

  lemma {:induction false} WherePlaceholders(where: seq<Clause>)
    ensures Placeholders(WhereText(where)) == TotalArity(where)
  {
    if where != [] {
      var front, last := where[..|where| - 1], where[|where| - 1];
      WherePlaceholders(front);
      ClausePlaceholders(last);
      if |where| > 1 {
        FixedHasNone(" AND ");
        PlaceholdersConcat(WhereText(front) + " AND ", Sql(last));
        PlaceholdersConcat(WhereText(front), " AND ");
      }
    }
  }

  /** What the request handlers let through. */
  predicate Accepted(q: SearchQuery) {
    ValidStatuses(q.statuses) && FiltersFit(q)
  }

  predicate ValidStatuses(raw: seq<string>) {
    forall i :: 0 <= i < |raw| ==> ValidStatus(raw[i])
  }

  predicate FiltersFit(q: SearchQuery) {
    && |q.providerIds| <= MAX_FILTER_ENTRIES && |q.statuses| <= MAX_FILTER_ENTRIES
    && |q.agentDomains| <= MAX_FILTER_ENTRIES && |q.protocols| <= MAX_FILTER_ENTRIES
    && |q.transports| <= MAX_FILTER_ENTRIES && |q.tags| <= MAX_FILTER_ENTRIES
    && |q.capabilities| <= MAX_FILTER_ENTRIES
  }

  /** The WHERE text has a placeholder for every argument, and with LIMIT and
      OFFSET an accepted query stays under SQLite's variable limit. */
  lemma BindingsFit(q: SearchQuery)
    ensures Placeholders(WhereText(Compiled(q).where)) == |Compiled(q).args|
    ensures Accepted(q) ==> |Compiled(q).args| + 2 <= 703 < MAX_VARIABLES
  {
    WherePlaceholders(Compiled(q).where);
    var a: Agent := Agent("", "", "", "", "", "", [], [], [], [], 0, 0);
    CompilationPreservesMeaning(q, a, Indexed(a), (m, row) => true);
  }
}
