/** Offset pagination with a peeked extra row, and walks along the links. */
module Paging {
  import opened Text
  import opened Decimal
  import opened Domain
  import opened Tables
  import opened History
  import opened Fts
  import opened Filters
  import opened Listing
  import opened Tokens
  import opened Links
  import opened PageCount

  const DEFAULT_PAGE_SIZE := 20
  const MAX_PAGE_SIZE := 100
  const MAX_PAGE := 100_000

  datatype SearchPage = SearchPage(
    items: seq<Agent>, totalItems: nat, totalPages: nat, prevToken: string, nextToken: string)

  function ClampSize(size: GoInt): (r: nat)
    ensures 1 <= r <= MAX_PAGE_SIZE
  {
    if size <= 0 then DEFAULT_PAGE_SIZE else if size > MAX_PAGE_SIZE then MAX_PAGE_SIZE else size
  }

  function EffectivePage(q: SearchQuery): (p: nat)
    ensures 1 <= p <= MAX_PAGE
  {
    var page :=
      if q.pageToken != "" then
        match DecodeToken(q.pageToken) { case Some(p) => p case None => 1 }
      else if q.page > 0 then q.page else 1;
    if page > MAX_PAGE then MAX_PAGE else page
  }

  /** LIMIT and OFFSET. */
  function Slice(rows: seq<Agent>, offset: nat, limit: nat): seq<Agent> {
    if offset >= |rows| then []
    else if offset + limit >= |rows| then rows[offset..]
    else rows[offset..offset + limit]
  }

  /** Where page p starts: (p - 1) * size, as a sum. */
  function Start(size: nat, p: nat): nat {
    if p <= 1 then 0 else Start(size, p - 1) + size
  }

  lemma {:induction false} StartIsProduct(size: nat, p: nat)
    requires p >= 1
    ensures Start(size, p) == (p - 1) * size
  {
    if p > 1 {
      StartIsProduct(size, p - 1);
      assert (p - 1) * size == (p - 2) * size + size;
    }
  }

  lemma StartUnderTheCap(size: nat, p: nat)
    requires p >= 1
    ensures p <= MAX_PAGE ==> Start(size, p) + size <= MAX_PAGE * size
    ensures p >= MAX_PAGE ==> Start(size, p) + size >= MAX_PAGE * size
  {
    StartIsProduct(size, p);
    assert (p - 1) * size + size == size * p;
    if p <= MAX_PAGE {
      Times(size, p, MAX_PAGE);
    }
    if p >= MAX_PAGE {
      Times(size, MAX_PAGE, p);
    }
  }

  /** The p-th page of the given size. */
  function PageOf(rows: seq<Agent>, size: nat, p: nat): seq<Agent> {
    Slice(rows, Start(size, p), size)
  }

  predicate HasNext(n: nat, size: nat, p: nat) {
    n > Start(size, p) + size
  }

  function Respond(rows: seq<Agent>, size: nat, p: nat, total: bool): SearchPage
    requires size >= 1
  {
    SearchPage(
      PageOf(rows, size, p),
      if total then |rows| else 0,
      if total then Pages(|rows|, size) else 0,
      if p > 1 then EncodeToken(p - 1) else "",
      if HasNext(|rows|, size, p) then EncodeToken(p + 1) else "")
  }

  /** The rows of the agents table as a query lists them, which queries the database
      takes, and which rows can be read. */
  datatype Source = Source(list: SearchQuery -> seq<Agent>, runs: SearchQuery -> bool, legible: Agent -> bool)

  const REFUSED_QUERY := "sqlitestore: search query: unterminated string"

  predicate AllLegible(rows: seq<Agent>, legible: Agent -> bool) {
    forall i :: 0 <= i < |rows| ==> legible(rows[i])
  }

  /** The rows fetched for a page: its own and the peeked one. */
  function Fetched(rows: seq<Agent>, size: nat, p: nat): seq<Agent> {
    Slice(rows, Start(size, p), size + 1)
  }

  /** The response to a query: an error when the database refuses it or a fetched
      row cannot be read, the peeked one included. */
  function Response(src: Source, q: SearchQuery): Result<SearchPage> {
    var rows, size, p := src.list(q), ClampSize(q.pageSize), EffectivePage(q);
    if !src.runs(q) then Err(REFUSED_QUERY)
    else if AllLegible(Fetched(rows, size, p), src.legible) then Ok(Respond(rows, size, p, q.totalRequired))
    else Err(UNREADABLE_TIME)
  }

  /** Which rows of a store can be read: those whose years have four digits. */
  function DatableRow(): Agent -> bool {
    a => Datable(a)
  }

  function SourceOf(db: Db, e: Engine): Source {
    Source(q => List(db, q, e), (q: SearchQuery) => Runs(q.text), DatableRow())
  }

  /** What reading a row comes to. */
  ghost predicate ScansAs(rows: seq<Agent>, scan: Agent -> Result<Agent>, legible: Agent -> bool) {
    forall i :: 0 <= i < |rows| ==> scan(rows[i]) == if legible(rows[i]) then Ok(rows[i]) else Err(UNREADABLE_TIME)
  }

  lemma WholeRowsScan(rows: seq<Agent>)
    requires forall i :: 0 <= i < |rows| ==> rows[i] == Stored(rows[i])
    ensures ScansAs(rows, ScanAgent, DatableRow())
  {
    forall i | 0 <= i < |rows|
      ensures ScanAgent(rows[i]) == if DatableRow()(rows[i]) then Ok(rows[i]) else Err(UNREADABLE_TIME)
    {
      ScanOfRow(rows[i], ScanAgent(rows[i]));
    }
  }

  lemma ScanOfRow(a: Agent, read: Result<Agent>)
    requires a == Stored(a) && read == ScanAgent(a)
    ensures read == if DatableRow()(a) then Ok(a) else Err(UNREADABLE_TIME)
  {
    ScanOfStored(a);
  }

  /** queryAgents: reads row by row and stops at the first that cannot be read. */
  method ScanRows(rows: seq<Agent>, scan: Agent -> Result<Agent>, ghost legible: Agent -> bool) returns (r: Result<seq<Agent>>)
    requires ScansAs(rows, scan, legible)
    ensures r == if AllLegible(rows, legible) then Ok(rows) else Err(UNREADABLE_TIME)
  {
    var items := [];
    for i := 0 to |rows|
      invariant items == rows[..i] && forall j :: 0 <= j < i ==> legible(rows[j])
    {
      var read := scan(rows[i]);
      if read.Err? {
        return Err(read.error);
      }
      items := items + [read.value];
    }
    assert items == rows;
    r := Ok(items);
  }

  /** One extra row is fetched to learn whether a page follows. */
  method CutPage(rows: seq<Agent>, count: nat, size: nat, page: nat, total: bool) returns (out: Result<SearchPage>)
    requires size >= 1 && page >= 1 && count == |rows|
    requires forall i :: 0 <= i < |rows| ==> rows[i] == Stored(rows[i])
    ensures out == if AllLegible(Fetched(rows, size, page), DatableRow()) then Ok(Respond(rows, size, page, total))
                   else Err(UNREADABLE_TIME)
  {
    var offset := (page - 1) * size;
    StartIsProduct(size, page);
    var fetched := Slice(rows, offset, size + 1);
    WholeRowsScan(fetched);
    var read := ScanRows(fetched, ScanAgent, DatableRow());
    if read.Err? {
      return Err(read.error);
    }
    var items := read.value;
    var hasNext := |items| > size;
    PeekTellsNext(rows, page, size);
    if hasNext {
      items := items[..size];
    }
    var cut := SearchPage(items, 0, 0, "", "");
    if page > 1 {
      cut := cut.(prevToken := EncodeToken(page - 1));
    }
    if hasNext {
      cut := cut.(nextToken := EncodeToken(page + 1));
    }
    if total {
      PagesIsDivision(|rows|, size);
      cut := cut.(totalItems := count, totalPages := (count + size - 1) / size);
    }
    out := Ok(cut);
  }

  /** The list query and, over the same joins and clauses, the count query. */
  method ListRows(db: Db, q: SearchQuery, e: Engine) returns (rows: seq<Agent>, count: nat)
    ensures rows == List(db, q, e) && count == |rows|
  {
    var f := BuildFilters(q);
    var matching := ResultRows(db.agents, db, f, e);
    rows, count := Ordered(OrderBy(q.text, e), matching), |matching|;
    OrderedMembers(OrderBy(q.text, e), matching);
    assert |multiset(rows)| == |rows| && |multiset(matching)| == |matching|;
  }

  lemma ListIsWhole(db: Db, q: SearchQuery, e: Engine)
    requires WholeSeconds(db)
    ensures forall i :: 0 <= i < |List(db, q, e)| ==> List(db, q, e)[i] == Stored(List(db, q, e)[i])
  {
    var rows := List(db, q, e);
    ListIsOfRows(db, q, e);
    forall i | 0 <= i < |rows|
      ensures rows[i] == Stored(rows[i])
    {
      assert rows[i] in rows;
      var j :| 0 <= j < |db.agents| && db.agents[j] == rows[i];
    }
  }

  /** Fails exactly when the text holds U+0000 or a fetched row cannot be read. */
  method Search(db: Db, q: SearchQuery, e: Engine) returns (out: Result<SearchPage>)
    requires WholeSeconds(db)
    ensures out == Response(SourceOf(db, e), q)
    ensures out.Ok? ==> NulFree(q.text)
  {
    var m := FtsMatch(q.text);
    if m != "" && ReadQuery(m).None? {
      return Err(REFUSED_QUERY);
    }
    var rows, count := ListRows(db, q, e);
    FtsReadsTheFields(q.text);
    ListIsWhole(db, q, e);
    out := CutPage(rows, count, ClampSize(q.pageSize), EffectivePage(q), q.totalRequired);
  }

  lemma PeekTellsNext(rows: seq<Agent>, p: nat, size: nat)
    requires size >= 1
    ensures
      var peeked := Slice(rows, Start(size, p), size + 1);
      && (|peeked| > size <==> HasNext(|rows|, size, p))
      && (|peeked| > size ==> peeked[..size] == PageOf(rows, size, p))
      && (|peeked| <= size ==> peeked == PageOf(rows, size, p))
  {
  }

  // ----- following a link

  /** Moving the cursor leaves the list alone, and whether there is one. */
  ghost predicate Steady(src: Source) {
    forall q, token ::
      src.list(Followed(q, token)) == src.list(q) && src.runs(Followed(q, token)) == src.runs(q)
  }

  /** An unchanged store is steady: the list depends on the filters and the text. */
  lemma StoreIsSteady(db: Db, e: Engine)
    ensures Steady(SourceOf(db, e))
  {
    forall q: SearchQuery, token
      ensures List(db, Followed(q, token), e) == List(db, q, e)
    {
      assert Compiled(Followed(q, token)) == Compiled(q);
    }
  }

  lemma FollowingMovesThePage(q: SearchQuery, p: nat)
    requires 1 <= p <= MAX_PAGE + 1
    ensures EffectivePage(Followed(q, EncodeToken(p))) == if p > MAX_PAGE then MAX_PAGE else p
    ensures EncodeToken(p) != ""
  {
    TokenRoundTrip(p);
  }

  /** A self link asks for the very same page. */
  lemma SelfLinkIsFaithful(v: Values, q: SearchQuery, src: Source)
    requires Accepted(q) && IsLink(v, q, "") && Steady(src)
    ensures Parsed(v).Some? && Response(src, Parsed(v).value) == Response(src, q)
  {
    LinksReadBack(v, q, "");
    SamePage(q, Followed(q, ""));
  }

  lemma SamePage(q: SearchQuery, r: SearchQuery)
    requires q.pageToken == r.pageToken && NonNegative(q.page) == NonNegative(r.page)
    ensures EffectivePage(q) == EffectivePage(r)
  {
  }

  // ----- the links of a response

  datatype Rel = Self | Prev | Next

  datatype Link = Link(rel: Rel, values: Values)

  function TokenFor(page: SearchPage, rel: Rel): string {
    match rel
    case Self => ""
    case Prev => page.prevToken
    case Next => page.nextToken
  }

  /** A self link, and one link for each cursor the page carries. */
  method BuildLinks(q: SearchQuery, page: SearchPage) returns (links: seq<Link>)
    ensures forall i :: 0 <= i < |links| ==> IsLink(links[i].values, q, TokenFor(page, links[i].rel))
    ensures forall rel :: (exists i :: 0 <= i < |links| && links[i].rel == rel) <==> rel == Self || TokenFor(page, rel) != ""
    ensures forall i, j :: 0 <= i < j < |links| ==> links[i].rel != links[j].rel
  {
    var self := HrefFor(q, "");
    links := [Link(Self, self)];
    assert links[0].rel == Self;
    if page.prevToken != "" {
      var prev := HrefFor(q, page.prevToken);
      links := links + [Link(Prev, prev)];
      assert links[1].rel == Prev;
    }
    if page.nextToken != "" {
      var next := HrefFor(q, page.nextToken);
      links := links + [Link(Next, next)];
      assert links[|links| - 1].rel == Next;
    }
    assert links[0].rel == Self;
    assert page.prevToken != "" ==> links[1].rel == Prev;
  }

  /** No link of a response to an accepted query is rejected, and each is read back
      as the query it was printed for with only the cursor moved. */
  lemma NoLinkIsRejected(link: Link, q: SearchQuery, page: SearchPage)
    requires Accepted(q) && IsLink(link.values, q, TokenFor(page, link.rel))
    ensures Parsed(link.values) == Some(Followed(q, TokenFor(page, link.rel)))
    ensures Accepted(Followed(q, TokenFor(page, link.rel)))
  {
    LinksReadBack(link.values, q, TokenFor(page, link.rel));
  }
}
