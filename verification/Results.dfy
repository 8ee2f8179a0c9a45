/** What a search shows, in terms of the agents that were imported and the query as
    it was asked. */
module Results {
  import opened Text
  import opened Domain
  import opened Tables
  import opened History
  import opened Like
  import opened Fts
  import opened Filters
  import opened Listing
  import opened Tokens
  import opened PageCount
  import opened Paging
  import opened Walks

  // ----- the plain meaning of a query

  predicate Shares(wanted: seq<string>, given: seq<string>) {
    exists v :: v in wanted && v in given
  }

  /** The conjunction of the filters on an agent as imported; an empty filter does not
      constrain, and domains are looked for as LIKE reads them. */
  predicate Chosen(q: SearchQuery, a: Agent, matches: Matcher) {
    && (Fields(q.text) == [] ||
          matches(FtsMatch(q.text), FtsRow(a.id, a.dnsName, a.displayName, a.description, a.tags, a.capabilities)))
    && (q.statuses == [] || a.status in q.statuses)
    && (q.providerIds == [] || a.providerId in q.providerIds)
    && (q.protocols == [] || Shares(q.protocols, a.protocols))
    && (q.transports == [] || Shares(q.transports, a.transports))
    && (q.tags == [] || Shares(q.tags, a.tags))
    && (q.capabilities == [] || Shares(q.capabilities, a.capabilities))
    && (q.agentDomains == [] || exists d :: d in q.agentDomains && Hit(d, a.dnsName))
  }

  lemma SelectsIsChosen(q: SearchQuery, a: Agent, matches: Matcher)
    ensures Selects(q, a, Indexed(a), matches) <==> Chosen(q, a, matches)
  {
  }

  lemma ChosenOfRecord(q: SearchQuery, a: Agent, written: Agent, matches: Matcher)
    requires IsRecordOf(a, written)
    ensures Chosen(q, a, matches) <==> Chosen(q, written, matches)
  {
  }

  /** Best rank first for a text, by name otherwise, and by id among equals. */
  predicate Ahead(q: SearchQuery, e: Engine, a: Agent, b: Agent) {
    if Fields(q.text) == [] then
      Less(a.displayName, b.displayName) || (a.displayName == b.displayName && Less(a.id, b.id))
    else
      var m := FtsMatch(q.text);
      var ra := e.rank(m, FtsRow(a.id, a.dnsName, a.displayName, a.description, a.tags, a.capabilities));
      var rb := e.rank(m, FtsRow(b.id, b.dnsName, b.displayName, b.description, b.tags, b.capabilities));
      ra < rb || (ra == rb && Less(a.id, b.id))
  }

  /** The last import of an id over a run. */
  function LastImport(steps: seq<Step>, id: string): Option<Agent> {
    LastNamed(CommittedAgents(EMPTY, steps), id)
  }

  // ----- the list

  /** The full list of a query over every run: exactly the ids whose last import is
      chosen, each once, with all that import held, in the documented order. */
  lemma ListShowsImports(steps: seq<Step>, q: SearchQuery, e: Engine)
    ensures
      var list := List(Run(EMPTY, steps), q, e);
      && (forall i :: 0 <= i < |list| ==>
            && LastImport(steps, list[i].id).Some?
            && IsRecordOf(list[i], LastImport(steps, list[i].id).value)
            && Chosen(q, LastImport(steps, list[i].id).value, e.matches))
      && (forall id :: LastImport(steps, id).Some? && Chosen(q, LastImport(steps, id).value, e.matches) ==> Shown(list, id))
      && (forall i, j :: 0 <= i < j < |list| ==> list[i].id != list[j].id && Ahead(q, e, list[i], list[j]))
  {
    var db := Run(EMPTY, steps);
    var list := List(db, q, e);
    ListIsTheSelection(steps, q, e);
    RunConsistent(steps);
    forall i | 0 <= i < |list|
      ensures LastImport(steps, list[i].id).Some?
      ensures IsRecordOf(list[i], LastImport(steps, list[i].id).value)
      ensures Chosen(q, LastImport(steps, list[i].id).value, e.matches)
    {
      assert list[i] in list;
      RowIsLastImport(steps, list[i]);
      SelectsIsChosen(q, list[i], e.matches);
      ChosenOfRecord(q, list[i], LastImport(steps, list[i].id).value, e.matches);
    }
    forall id | LastImport(steps, id).Some? && Chosen(q, LastImport(steps, id).value, e.matches)
      ensures Shown(list, id)
    {
      ChosenIsListed(steps, q, e, id);
    }
    forall i, j | 0 <= i < j < |list|
      ensures list[i].id != list[j].id && Ahead(q, e, list[i], list[j])
    {
      assert OrderBy(q.text, e)(list[i], list[j]);
      AheadOfPrecedes(q, e, list[i], list[j]);
      assert list[i] in list && list[j] in list;
      DistinctRows(db.agents, list[i], list[j]);
    }
  }

  predicate Shown(list: seq<Agent>, id: string) {
    exists i :: 0 <= i < |list| && list[i].id == id
  }

  lemma AheadOfPrecedes(q: SearchQuery, e: Engine, a: Agent, b: Agent)
    requires Precedes(q.text, e, a, b)
    ensures Ahead(q, e, a, b)
  {
  }

  lemma DistinctRows(agents: seq<Agent>, a: Agent, b: Agent)
    requires History.DistinctIds(agents) && a in agents && b in agents && a != b
    ensures a.id != b.id
  {
  }

  lemma ChosenIsListed(steps: seq<Step>, q: SearchQuery, e: Engine, id: string)
    requires LastImport(steps, id).Some? && Chosen(q, LastImport(steps, id).value, e.matches)
    ensures Shown(List(Run(EMPTY, steps), q, e), id)
  {
    var db := Run(EMPTY, steps);
    AgentIsLastImport(steps, id);
    var a := db.agents[FindAgent(db.agents, id)];
    RowIsLastImport(steps, a);
    ChosenOfRecord(q, a, LastImport(steps, id).value, e.matches);
    SelectsIsChosen(q, a, e.matches);
    ListIsTheSelection(steps, q, e);
    assert a in List(db, q, e);
  }

  // ----- one page

  /** The page and the size that a query asks for: sizes 1 to 100 as given, 20 for
      none, 100 for more; pages up to 100000, from the token if there is one, and the
      first if there is none or it cannot be read. */
  predicate Asks(q: SearchQuery, page: nat, size: nat) {
    && (1 <= q.pageSize <= 100 ==> size == q.pageSize)
    && (q.pageSize <= 0 ==> size == 20)
    && (q.pageSize > 100 ==> size == 100)
    && (q.pageToken == "" && 1 <= q.page <= 100_000 ==> page == q.page)
    && (q.pageToken == "" && q.page <= 0 ==> page == 1)
    && (q.pageToken == "" && q.page > 100_000 ==> page == 100_000)
    && (q.pageToken != "" ==>
          match DecodeToken(q.pageToken)
          case None => page == 1
          case Some(p) => page == if p > 100_000 then 100_000 else p)
  }

  function Least(a: int, b: int): int {
    if a < b then a else b
  }

  /** The rows between the page's bounds, the totals when asked for, and tokens for
      the neighbouring pages that exist. */
  predicate IsPage(r: SearchPage, rows: seq<Agent>, page: nat, size: nat, total: bool)
    requires size >= 1
  {
    var n := |rows|;
    var from, to := Least((page - 1) * size, n), Least(page * size, n);
    && 0 <= from <= to <= n && r.items == rows[from..to]
    && (total ==> r.totalItems == n && r.totalPages == (n + size - 1) / size)
    && (!total ==> r.totalItems == 0 && r.totalPages == 0)
    && (if n > page * size then DecodeToken(r.nextToken) == Some(page + 1) else r.nextToken == "")
    && (if page > 1 then DecodeToken(r.prevToken) == Some(page - 1) else r.prevToken == "")
  }

  /** A successful answer, whatever is searched, is exactly the page asked for. */
  lemma PageIsExact(src: Source, q: SearchQuery, page: nat, size: nat)
    requires Asks(q, page, size) && Response(src, q).Ok?
    ensures page >= 1 && size >= 1 && IsPage(Response(src, q).value, src.list(q), page, size, q.totalRequired)
  {
    AskedIsEffective(q, page, size);
    AnswerIsRespond(src, q);
    RespondIsExact(src.list(q), size, page, q.totalRequired);
  }

  lemma AnswerIsRespond(src: Source, q: SearchQuery)
    requires Response(src, q).Ok?
    ensures Response(src, q).value == Respond(src.list(q), ClampSize(q.pageSize), EffectivePage(q), q.totalRequired)
  {
  }

  lemma RespondIsExact(rows: seq<Agent>, size: nat, page: nat, total: bool)
    requires size >= 1 && 1 <= page <= MAX_PAGE
    ensures IsPage(Respond(rows, size, page, total), rows, page, size, total)
  {
    SliceIsBetween(rows, size, page);
    TokensAreNeighbours(rows, size, page, total);
  }

  lemma SliceIsBetween(rows: seq<Agent>, size: nat, page: nat)
    requires size >= 1 && page >= 1
    ensures
      var n := |rows|;
      var from, to := Least((page - 1) * size, n), Least(page * size, n);
      && 0 <= from <= to <= n && PageOf(rows, size, page) == rows[from..to]
      && Pages(n, size) == (n + size - 1) / size
      && (HasNext(n, size, page) <==> n > page * size)
  {
    StartIsProduct(size, page);
    NextStart(size, page);
    PagesIsDivision(|rows|, size);
  }

  lemma TokensAreNeighbours(rows: seq<Agent>, size: nat, page: nat, total: bool)
    requires size >= 1 && 1 <= page <= MAX_PAGE
    ensures
      var r := Respond(rows, size, page, total);
      && (if HasNext(|rows|, size, page) then DecodeToken(r.nextToken) == Some(page + 1) else r.nextToken == "")
      && (if page > 1 then DecodeToken(r.prevToken) == Some(page - 1) else r.prevToken == "")
  {
    TokenRoundTrip(page + 1);
    if page > 1 {
      TokenRoundTrip(page - 1);
    }
  }

  lemma AskedIsEffective(q: SearchQuery, page: nat, size: nat)
    requires Asks(q, page, size)
    ensures page == EffectivePage(q) && size == ClampSize(q.pageSize)
  {
  }

  lemma NextStart(size: nat, page: nat)
    requires page >= 1
    ensures (page - 1) * size + size == page * size && (page - 1) * size >= 0
  {
  }

  /** Every query asks for one page of one size. */
  lemma EveryQueryAsks(q: SearchQuery) returns (page: nat, size: nat)
    ensures Asks(q, page, size)
    ensures forall p, s :: Asks(q, p, s) ==> p == page && s == size
  {
    page, size := EffectivePage(q), ClampSize(q.pageSize);
    forall p, s | Asks(q, p, s)
      ensures p == page && s == size
    {
      AskedIsEffective(q, p, s);
    }
  }

  /** A search over a run answers exactly when the text holds no U+0000 and the last
      imports of all rows fetched, the peeked one included, have four-digit years. */
  lemma SearchAnswersExactly(steps: seq<Step>, q: SearchQuery, e: Engine, page: nat, size: nat)
    requires Asks(q, page, size)
    ensures
      var list := List(Run(EMPTY, steps), q, e);
      Response(SourceOf(Run(EMPTY, steps), e), q).Ok? <==>
        && NulFree(q.text)
        && forall i :: (page - 1) * size <= i <= page * size && 0 <= i < |list| ==> ImportedDatable(steps, list[i].id)
  {
    var db := Run(EMPTY, steps);
    AskedIsEffective(q, page, size);
    StartIsProduct(size, page);
    NextStart(size, page);
    FtsReadsTheFields(q.text);
    FetchedAreRead(steps, List(db, q, e), q, e, size, page);
  }

  lemma FetchedAreRead(steps: seq<Step>, list: seq<Agent>, q: SearchQuery, e: Engine, size: nat, page: nat)
    requires list == List(Run(EMPTY, steps), q, e)
    ensures AllLegible(Fetched(list, size, page), DatableRow()) <==>
      forall i :: Start(size, page) <= i <= Start(size, page) + size && i < |list| ==> ImportedDatable(steps, list[i].id)
  {
    var fetched, o := Fetched(list, size, page), Start(size, page);
    ListIsOfRows(Run(EMPTY, steps), q, e);
    FetchedAre(list, size, page);
    forall i | 0 <= i < |fetched|
      ensures fetched[i] in Run(EMPTY, steps).agents
    {
      assert list[o + i] in list;
    }
    LegibleIsImportedDatable(steps, fetched);
  }

  lemma FetchedAre(list: seq<Agent>, size: nat, page: nat)
    ensures
      var fetched, o := Fetched(list, size, page), Start(size, page);
      && (forall i :: 0 <= i < |fetched| ==> i <= size && o + i < |list| && fetched[i] == list[o + i])
      && (forall i :: o <= i <= o + size && i < |list| ==> i - o < |fetched| && list[i] == fetched[i - o])
  {
    SliceIs(list, Start(size, page), size + 1);
  }

  lemma SliceIs(list: seq<Agent>, o: nat, limit: nat)
    ensures
      var slice := Slice(list, o, limit);
      && (forall i :: 0 <= i < |slice| ==> i < limit && o + i < |list| && slice[i] == list[o + i])
      && (forall i :: o <= i < o + limit && i < |list| ==> i - o < |slice| && list[i] == slice[i - o])
  {
  }

  // ----- a walk

  /** A walk for a text without U+0000 from the first page, under the page cap, shows
      the whole list exactly when the last imports of all chosen ids have four-digit
      years; it then shows exactly the ids whose last import is chosen, each once,
      with all that import held, in the documented order. */
  lemma WalkShowsImports(steps: seq<Step>, q: SearchQuery, e: Engine, k: nat, size: nat)
    requires Accepted(q) && Asks(q, 1, size) && NulFree(q.text)
    requires |List(Run(EMPTY, steps), q, e)| <= 100_000 * size
    requires k >= 1 && k * size >= |List(Run(EMPTY, steps), q, e)|
    ensures
      var shown := Items(Walk(Serving(SourceOf(Run(EMPTY, steps), e)), q, k));
      var whole := forall id :: LastImport(steps, id).Some? && Chosen(q, LastImport(steps, id).value, e.matches) ==>
        Datable(LastImport(steps, id).value);
      && (shown == List(Run(EMPTY, steps), q, e) <==> whole)
      && (whole ==>
            && (forall i :: 0 <= i < |shown| ==>
                  && LastImport(steps, shown[i].id).Some?
                  && IsRecordOf(shown[i], LastImport(steps, shown[i].id).value)
                  && Chosen(q, LastImport(steps, shown[i].id).value, e.matches))
            && (forall id :: LastImport(steps, id).Some? && Chosen(q, LastImport(steps, id).value, e.matches) ==> Shown(shown, id))
            && (forall i, j :: 0 <= i < j < |shown| ==> shown[i].id != shown[j].id && Ahead(q, e, shown[i], shown[j])))
  {
    AskedIsEffective(q, 1, size);
    EnoughPages(|List(Run(EMPTY, steps), q, e)|, size, k);
    WalkShowsTheSelection(steps, q, e, k);
    ListShowsImports(steps, q, e);
    WholeIsDatable(steps, q, e);
  }

  lemma EnoughPages(n: nat, size: nat, k: nat)
    requires size >= 1 && k * size >= n
    ensures k >= Pages(n, size)
  {
    PagesIsCeiling(n, size);
    assert k * size == size * k;
    if k < Pages(n, size) {
      Times(size, k, Pages(n, size) - 1);
    }
  }

  lemma WholeIsDatable(steps: seq<Step>, q: SearchQuery, e: Engine)
    ensures
      var db := Run(EMPTY, steps);
      (forall a :: a in db.agents && Selects(q, a, Indexed(a), e.matches) ==> ImportedDatable(steps, a.id)) <==>
      (forall id :: LastImport(steps, id).Some? && Chosen(q, LastImport(steps, id).value, e.matches) ==>
         Datable(LastImport(steps, id).value))
  {
    var db := Run(EMPTY, steps);
    forall a | a in db.agents
      ensures LastImport(steps, a.id).Some?
      ensures Selects(q, a, Indexed(a), e.matches) <==> Chosen(q, LastImport(steps, a.id).value, e.matches)
    {
      RowIsLastImport(steps, a);
      SelectsIsChosen(q, a, e.matches);
      ChosenOfRecord(q, a, LastImport(steps, a.id).value, e.matches);
    }
    forall id | LastImport(steps, id).Some?
      ensures exists a :: a in db.agents && a.id == id
    {
      AgentIsLastImport(steps, id);
      assert db.agents[FindAgent(db.agents, id)] in db.agents;
    }
  }
}
