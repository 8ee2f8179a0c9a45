/** Walks from page to page along the links of a search. */
module Walks {
  import opened Text
  import opened Domain
  import opened Tables
  import opened History
  import opened Fts
  import opened Filters
  import opened Listing
  import opened Tokens
  import opened Links
  import opened PageCount
  import opened Paging

  /** A search service: how it answers a query, and how it reads the link that it
      printed for a query and a token. */
  datatype Site = Site(respond: SearchQuery -> Result<SearchPage>, follow: (SearchQuery, string) -> Option<SearchQuery>)

  function Serving(src: Source): Site {
    Site(q => Response(src, q), (q, token) => Parsed(Href(q, token)))
  }

  /** The first k pages seen by following next links: print the link, read it
      back, search again; a failed search or a rejected link ends the walk. */
  function Walk(site: Site, q: SearchQuery, k: nat): seq<SearchPage>
    decreases k
  {
    if k == 0 then []
    else
      match site.respond(q)
      case Err(_) => []
      case Ok(page) =>
        [page] +
        if page.nextToken == "" then []
        else
          match site.follow(q, page.nextToken)
          case None => []
          case Some(next) => Walk(site, next, k - 1)
  }

  /** Reads every link it prints as it was meant. */
  ghost predicate Navigable(site: Site) {
    forall q, token :: Accepted(q) ==>
      site.follow(q, token) == Some(Followed(q, token)) && Accepted(Followed(q, token))
  }

  lemma ServingIsNavigable(src: Source)
    ensures Navigable(Serving(src))
  {
    forall q, token | Accepted(q)
      ensures Serving(src).follow(q, token) == Some(Followed(q, token)) && Accepted(Followed(q, token))
    {
      LinksReadBack(Href(q, token), q, token);
    }
  }

  // ----- one step

  /** The page a next link from page p leads to, clamped on arrival. */
  function NextStop(p: nat): nat {
    if p < MAX_PAGE then p + 1 else p
  }

  /** What one page shows and where its next link leads. */
  ghost predicate StepsFrom(rows: seq<Agent>, size: nat, p: nat, page: SearchPage, next: seq<Agent>, nextSize: nat, nextPage: nat) {
    && page.items == PageOf(rows, size, p)
    && (page.nextToken == "" <==> !HasNext(|rows|, size, p))
    && (page.nextToken != "" ==> next == rows && nextSize == size && nextPage == NextStop(p))
  }

  lemma OneStep(src: Source, q: SearchQuery)
    requires Steady(src) && Response(src, q).Ok?
    ensures
      var page := Response(src, q).value;
      var next := Followed(q, page.nextToken);
      StepsFrom(src.list(q), ClampSize(q.pageSize), EffectivePage(q), page,
                src.list(next), ClampSize(next.pageSize), EffectivePage(next))
  {
    FollowingMovesThePage(q, EffectivePage(q) + 1);
  }

  /** The rows that links can lead to: all of them under the page cap, and up to
      the one peeked by the last page otherwise. */
  function Reach(rows: seq<Agent>, size: nat): seq<Agent> {
    if |rows| <= MAX_PAGE * size then rows else rows[..MAX_PAGE * size + 1]
  }

  lemma FetchedWithinReach(rows: seq<Agent>, size: nat, p: nat, legible: Agent -> bool)
    requires 1 <= p <= MAX_PAGE && AllLegible(Reach(rows, size), legible)
    ensures AllLegible(Fetched(rows, size, p), legible)
  {
    StartUnderTheCap(size, p);
    var fetched, o := Fetched(rows, size, p), Start(size, p);
    forall i | 0 <= i < |fetched|
      ensures legible(fetched[i])
    {
      assert fetched[i] == Reach(rows, size)[o + i];
    }
  }

  // ----- a walk as page numbers

  /** Next leads one page on, up to the cap. */
  function Stops(n: nat, size: nat, p: nat, k: nat): seq<nat>
    decreases k
  {
    if k == 0 then []
    else [p] + if !HasNext(n, size, p) then [] else Stops(n, size, NextStop(p), k - 1)
  }

  /** Pages that show, one by one, the given page numbers. */
  predicate Shows(pages: seq<SearchPage>, rows: seq<Agent>, size: nat, stops: seq<nat>) {
    |pages| == |stops| && forall i :: 0 <= i < |stops| ==> pages[i].items == PageOf(rows, size, stops[i])
  }

  lemma ShowsCons(page: SearchPage, pages: seq<SearchPage>, rows: seq<Agent>, size: nat, p: nat, stops: seq<nat>)
    requires page.items == PageOf(rows, size, p) && Shows(pages, rows, size, stops)
    ensures Shows([page] + pages, rows, size, [p] + stops)
  {
  }

  /** The search succeeds, and its next link leads to another fine one. */
  ghost predicate GoodStep(site: Site, list: SearchQuery -> seq<Agent>, size: SearchQuery -> nat,
                           page: SearchQuery -> nat, fine: SearchQuery -> bool, r: SearchQuery) {
    && site.respond(r).Ok?
    && var next := Followed(r, site.respond(r).value.nextToken);
    && fine(next)
    && StepsFrom(list(r), size(r), page(r), site.respond(r).value, list(next), size(next), page(next))
  }

  /** Any site whose steps are right, as long as its searches are fine, walks
      through the page numbers. */
  lemma {:induction false} StepsMakeAWalk(site: Site, list: SearchQuery -> seq<Agent>, size: SearchQuery -> nat,
                                          page: SearchQuery -> nat, fine: SearchQuery -> bool, q: SearchQuery, k: nat)
    requires Accepted(q) && Navigable(site) && fine(q)
    requires forall r {:trigger GoodStep(site, list, size, page, fine, r)} :: fine(r) ==> GoodStep(site, list, size, page, fine, r)
    ensures Shows(Walk(site, q, k), list(q), size(q), Stops(|list(q)|, size(q), page(q), k))
    decreases k
  {
    if k > 0 {
      assert GoodStep(site, list, size, page, fine, q);
      var p := site.respond(q).value;
      var next := Followed(q, p.nextToken);
      if p.nextToken == "" {
        ShowsCons(p, [], list(q), size(q), page(q), []);
      } else {
        assert site.follow(q, p.nextToken) == Some(next);
        StepsMakeAWalk(site, list, size, page, fine, next, k - 1);
        ShowsCons(p, Walk(site, next, k - 1), list(q), size(q), page(q), Stops(|list(q)|, size(q), page(next), k - 1));
      }
    }
  }

  lemma WalkIsStops(src: Source, q: SearchQuery, k: nat)
    requires Steady(src) && Accepted(q) && src.runs(q) && AllLegible(Reach(src.list(q), ClampSize(q.pageSize)), src.legible)
    ensures Shows(Walk(Serving(src), q, k), src.list(q), ClampSize(q.pageSize),
                  Stops(|src.list(q)|, ClampSize(q.pageSize), EffectivePage(q), k))
  {
    var size := (r: SearchQuery) => ClampSize(r.pageSize);
    var page := (r: SearchQuery) => EffectivePage(r);
    var fine := (r: SearchQuery) => src.runs(r) && AllLegible(Reach(src.list(r), ClampSize(r.pageSize)), src.legible);
    forall r | fine(r)
      ensures GoodStep(Serving(src), src.list, size, page, fine, r)
    {
      FetchedWithinReach(src.list(r), size(r), page(r), src.legible);
      OneStep(src, r);
    }
    ServingIsNavigable(src);
    StepsMakeAWalk(Serving(src), src.list, size, page, fine, q, k);
  }

  // ----- page numbers

  function Shown(rows: seq<Agent>, size: nat, stops: seq<nat>): seq<Agent> {
    if stops == [] then [] else PageOf(rows, size, stops[0]) + Shown(rows, size, stops[1..])
  }

  /** How many pages are left from page p on. */
  function PagesFrom(n: nat, size: nat, p: nat): nat
    requires size >= 1
  {
    if HasNext(n, size, p) then Pages(n - Start(size, p), size) else 1
  }

  lemma MorePagesFollow(n: nat, size: nat, p: nat)
    requires size >= 1 && p >= 1 && HasNext(n, size, p) && n <= MAX_PAGE * size
    ensures p < MAX_PAGE
    ensures PagesFrom(n, size, p) == 1 + PagesFrom(n, size, p + 1)
  {
    StartUnderTheCap(size, p);
    var left := n - Start(size, p);
    assert Pages(left, size) == 1 + Pages(left - size, size);
  }

  lemma {:induction false} StopsEnd(n: nat, size: nat, p: nat, k: nat)
    requires size >= 1 && 1 <= p <= MAX_PAGE && n <= MAX_PAGE * size
    requires k >= PagesFrom(n, size, p)
    ensures |Stops(n, size, p, k)| == PagesFrom(n, size, p)
    decreases k
  {
    if HasNext(n, size, p) {
      MorePagesFollow(n, size, p);
      StopsEnd(n, size, p + 1, k - 1);
    }
  }

  lemma ShownCons(rows: seq<Agent>, size: nat, p: nat, rest: seq<nat>)
    ensures Shown(rows, size, [p] + rest) == PageOf(rows, size, p) + Shown(rows, size, rest)
  {
    assert ([p] + rest)[1..] == rest;
  }

  function From(rows: seq<Agent>, o: nat): seq<Agent> {
    if o >= |rows| then [] else rows[o..]
  }

  /** Under the cap the stops run through the rest of the list. */
  lemma {:induction false} StopsCoverTheRest(rows: seq<Agent>, size: nat, p: nat, k: nat)
    requires size >= 1 && 1 <= p <= MAX_PAGE && |rows| <= MAX_PAGE * size
    requires k >= PagesFrom(|rows|, size, p)
    ensures Shown(rows, size, Stops(|rows|, size, p, k)) == From(rows, Start(size, p))
    decreases k
  {
    if !HasNext(|rows|, size, p) {
      ShownCons(rows, size, p, []);
    } else {
      MorePagesFollow(|rows|, size, p);
      StopsCoverTheRest(rows, size, p + 1, k - 1);
      CoverOneMore(rows, size, p, Stops(|rows|, size, p + 1, k - 1));
    }
  }

  lemma CoverOneMore(rows: seq<Agent>, size: nat, p: nat, rest: seq<nat>)
    requires p >= 1 && Shown(rows, size, rest) == From(rows, Start(size, p + 1))
    ensures Shown(rows, size, [p] + rest) == From(rows, Start(size, p))
  {
    ShownCons(rows, size, p, rest);
    PageThenRest(rows, Start(size, p), size);
  }

  lemma PageThenRest(rows: seq<Agent>, o: nat, size: nat)
    ensures Slice(rows, o, size) + From(rows, o + size) == From(rows, o)
  {
  }

  /** Beyond the cap they never end, and stay on the capped page. */
  lemma {:induction false} StopsNeverEnd(n: nat, size: nat, p: nat, k: nat)
    requires 1 <= p <= MAX_PAGE && n > MAX_PAGE * size
    ensures |Stops(n, size, p, k)| == k
    ensures forall i :: 0 <= i < k && p + i >= MAX_PAGE ==> Stops(n, size, p, k)[i] == MAX_PAGE
    decreases k
  {
    if k > 0 {
      StartUnderTheCap(size, p);
      StopsNeverEnd(n, size, NextStop(p), k - 1);
    }
  }

  // ----- what a client sees

  function Items(pages: seq<SearchPage>): seq<Agent> {
    if pages == [] then [] else pages[0].items + Items(pages[1..])
  }

  lemma {:induction false} ItemsOfStops(pages: seq<SearchPage>, rows: seq<Agent>, size: nat, stops: seq<nat>)
    requires Shows(pages, rows, size, stops)
    ensures Items(pages) == Shown(rows, size, stops)
  {
    if pages != [] {
      ItemsOfStops(pages[1..], rows, size, stops[1..]);
    }
  }

  /** No walk shows a row that cannot be read. */
  lemma {:induction false} WalkIsLegible(site: Site, legible: Agent -> bool, q: SearchQuery, k: nat)
    requires forall r :: site.respond(r).Ok? ==> AllLegible(site.respond(r).value.items, legible)
    ensures AllLegible(Items(Walk(site, q, k)), legible)
    decreases k
  {
    if k > 0 && site.respond(q).Ok? {
      var page := site.respond(q).value;
      if page.nextToken != "" && site.follow(q, page.nextToken).Some? {
        var rest := Walk(site, site.follow(q, page.nextToken).value, k - 1);
        WalkIsLegible(site, legible, site.follow(q, page.nextToken).value, k - 1);
        ItemsCons(page, rest);
      } else {
        ItemsCons(page, []);
      }
    }
  }

  lemma ItemsCons(page: SearchPage, rest: seq<SearchPage>)
    ensures Items([page] + rest) == page.items + Items(rest)
  {
    assert ([page] + rest)[1..] == rest;
  }

  lemma ServesLegible(src: Source, q: SearchQuery)
    requires Response(src, q).Ok?
    ensures AllLegible(Response(src, q).value.items, src.legible)
  {
    var rows, size, p := src.list(q), ClampSize(q.pageSize), EffectivePage(q);
    PeekTellsNext(rows, p, size);
    var fetched, items := Fetched(rows, size, p), PageOf(rows, size, p);
    assert forall i :: 0 <= i < |items| ==> items[i] == fetched[i];
  }

  /** A refused query shows nothing.  Otherwise, from the first page and under the
      page cap, following next links visits every row once and in order exactly when
      every row can be read; it then takes exactly as many pages as the list needs
      (one when it is empty). */
  lemma WalkVisitsEverything(src: Source, q: SearchQuery, k: nat)
    requires Steady(src) && Accepted(q) && EffectivePage(q) == 1
    requires |src.list(q)| <= MAX_PAGE * ClampSize(q.pageSize)
    requires k >= 1 && k >= Pages(|src.list(q)|, ClampSize(q.pageSize))
    ensures !src.runs(q) ==> Walk(Serving(src), q, k) == []
    ensures src.runs(q) ==> (Items(Walk(Serving(src), q, k)) == src.list(q) <==> AllLegible(src.list(q), src.legible))
    ensures src.runs(q) && AllLegible(src.list(q), src.legible) ==>
      |Walk(Serving(src), q, k)| == if src.list(q) == [] then 1 else Pages(|src.list(q)|, ClampSize(q.pageSize))
  {
    if src.runs(q) && AllLegible(src.list(q), src.legible) {
      LegibleWalk(src, q, k);
    } else if src.runs(q) {
      forall r | Serving(src).respond(r).Ok?
        ensures AllLegible(Serving(src).respond(r).value.items, src.legible)
      {
        ServesLegible(src, r);
      }
      WalkIsLegible(Serving(src), src.legible, q, k);
    }
  }

  lemma LegibleWalk(src: Source, q: SearchQuery, k: nat)
    requires Steady(src) && Accepted(q) && src.runs(q) && EffectivePage(q) == 1 && AllLegible(src.list(q), src.legible)
    requires |src.list(q)| <= MAX_PAGE * ClampSize(q.pageSize)
    requires k >= 1 && k >= Pages(|src.list(q)|, ClampSize(q.pageSize))
    ensures Items(Walk(Serving(src), q, k)) == src.list(q)
    ensures |Walk(Serving(src), q, k)| == if src.list(q) == [] then 1 else Pages(|src.list(q)|, ClampSize(q.pageSize))
  {
    var rows, size, p := src.list(q), ClampSize(q.pageSize), EffectivePage(q);
    WalkIsStops(src, q, k);
    PagesFromStart(|rows|, size, p);
    StopsShowAll(Walk(Serving(src), q, k), rows, size, p, k);
  }

  lemma PagesFromStart(n: nat, size: nat, p: nat)
    requires size >= 1 && Start(size, p) == 0
    ensures PagesFrom(n, size, p) == if n == 0 then 1 else Pages(n, size)
  {
  }

  lemma StopsShowAll(pages: seq<SearchPage>, rows: seq<Agent>, size: nat, p: nat, k: nat)
    requires size >= 1 && |rows| <= MAX_PAGE * size && 1 <= p <= MAX_PAGE && Start(size, p) == 0
    requires k >= PagesFrom(|rows|, size, p) && Shows(pages, rows, size, Stops(|rows|, size, p, k))
    ensures Items(pages) == rows && |pages| == PagesFrom(|rows|, size, p)
  {
    assert From(rows, 0) == rows;
    StopsEnd(|rows|, size, p, k);
    StopsCoverTheRest(rows, size, p, k);
    ItemsOfStops(pages, rows, size, Stops(|rows|, size, p, k));
  }

  /** Beyond the cap a walk over readable rows of a query that runs never ends: the last reachable page
      is served for ever and the rows behind it are never seen. */
  lemma WalkNeverEnds(src: Source, q: SearchQuery, k: nat)
    requires Steady(src) && Accepted(q) && |src.list(q)| > MAX_PAGE * ClampSize(q.pageSize)
    requires src.runs(q) && AllLegible(Reach(src.list(q), ClampSize(q.pageSize)), src.legible)
    ensures |Walk(Serving(src), q, k)| == k
    ensures forall i :: 0 <= i < k && EffectivePage(q) + i >= MAX_PAGE ==>
      Walk(Serving(src), q, k)[i].items == Slice(src.list(q), (MAX_PAGE - 1) * ClampSize(q.pageSize), ClampSize(q.pageSize))
  {
    var rows, size, p := src.list(q), ClampSize(q.pageSize), EffectivePage(q);
    WalkIsStops(src, q, k);
    StopsNeverEnd(|rows|, size, p, k);
    var stops := Stops(|rows|, size, p, k);
    forall i | 0 <= i < k && p + i >= MAX_PAGE
      ensures Walk(Serving(src), q, k)[i].items == Slice(rows, (MAX_PAGE - 1) * size, size)
    {
      StartIsProduct(size, stops[i]);
    }
  }

  // ----- when a walk ends

  /** A walk ends before a page that cannot be served. */
  lemma {:induction false} WalkStopsBefore(site: Site, page: SearchQuery -> nat, doomed: SearchQuery -> bool,
                                           q: SearchQuery, b: nat, k: nat)
    requires Accepted(q) && Navigable(site) && doomed(q) && page(q) <= b
    requires forall r :: doomed(r) && page(r) == b ==> site.respond(r).Err?
    requires forall r :: doomed(r) && page(r) < b && site.respond(r).Ok? && site.respond(r).value.nextToken != "" ==>
      var next := Followed(r, site.respond(r).value.nextToken);
      doomed(next) && page(next) == page(r) + 1
    ensures |Walk(site, q, k)| <= b - page(q)
    decreases k
  {
    if k > 0 && site.respond(q).Ok? && site.respond(q).value.nextToken != "" {
      var token := site.respond(q).value.nextToken;
      var next := Followed(q, token);
      assert site.follow(q, token) == Some(next);
      WalkStopsBefore(site, page, doomed, next, b, k - 1);
    }
  }

  lemma BadPageEndsTheWalk(src: Source, q: SearchQuery, b: nat, k: nat)
    requires Steady(src) && Accepted(q) && EffectivePage(q) <= b <= MAX_PAGE
    requires !AllLegible(Fetched(src.list(q), ClampSize(q.pageSize), b), src.legible)
    ensures |Walk(Serving(src), q, k)| <= b - EffectivePage(q)
  {
    var rows, size := src.list(q), ClampSize(q.pageSize);
    var page := (r: SearchQuery) => EffectivePage(r);
    var doomed := (r: SearchQuery) => src.list(r) == rows && ClampSize(r.pageSize) == size;
    forall r | doomed(r) && page(r) < b && Serving(src).respond(r).Ok? && Serving(src).respond(r).value.nextToken != ""
      ensures
        var next := Followed(r, Serving(src).respond(r).value.nextToken);
        doomed(next) && page(next) == page(r) + 1
    {
      OneStep(src, r);
    }
    ServingIsNavigable(src);
    WalkStopsBefore(Serving(src), page, doomed, q, b, k);
  }

  /** Every row within reach is fetched by some page. */
  lemma PageFetching(size: nat, p: nat, j: nat) returns (b: nat)
    requires size >= 1 && 1 <= p <= MAX_PAGE && Start(size, p) <= j <= MAX_PAGE * size
    ensures p <= b <= MAX_PAGE && Start(size, b) <= j <= Start(size, b) + size
    decreases MAX_PAGE - p
  {
    b := p;
    StartUnderTheCap(size, p);
    if j > Start(size, p) + size {
      b := PageFetching(size, p + 1, j);
    }
  }

  lemma FetchedHolds(rows: seq<Agent>, size: nat, b: nat, j: nat)
    requires j < |rows| && Start(size, b) <= j <= Start(size, b) + size
    ensures j - Start(size, b) < |Fetched(rows, size, b)| && Fetched(rows, size, b)[j - Start(size, b)] == rows[j]
  {
  }

  lemma UnreadableRowEndsTheWalk(src: Source, q: SearchQuery) returns (k: nat)
    requires Steady(src) && Accepted(q) && EffectivePage(q) == 1
    requires !AllLegible(Reach(src.list(q), ClampSize(q.pageSize)), src.legible)
    ensures |Walk(Serving(src), q, k)| < k
  {
    var rows, size := src.list(q), ClampSize(q.pageSize);
    var j :| 0 <= j < |Reach(rows, size)| && !src.legible(Reach(rows, size)[j]);
    var b := PageFetching(size, 1, j);
    FetchedHolds(rows, size, b, j);
    k := b;
    BadPageEndsTheWalk(src, q, b, k);
  }

  /** A walk ends exactly when the query is refused, the list fits under the page
      cap, or a row within reach cannot be read. */
  lemma WalkEndsExactly(src: Source, q: SearchQuery)
    requires Steady(src) && Accepted(q) && EffectivePage(q) == 1
    ensures (exists k :: |Walk(Serving(src), q, k)| < k) <==>
      || !src.runs(q)
      || |src.list(q)| <= MAX_PAGE * ClampSize(q.pageSize)
      || !AllLegible(Reach(src.list(q), ClampSize(q.pageSize)), src.legible)
  {
    var n, size := |src.list(q)|, ClampSize(q.pageSize);
    if !src.runs(q) {
      assert |Walk(Serving(src), q, 1)| < 1;
    } else if !AllLegible(Reach(src.list(q), size), src.legible) {
      var k := UnreadableRowEndsTheWalk(src, q);
    } else if n <= MAX_PAGE * size {
      var k := Pages(n, size) + 2;
      LegibleWalk(src, q, k);
      assert |Walk(Serving(src), q, k)| < k;
    } else {
      forall k: nat
        ensures |Walk(Serving(src), q, k)| == k
      {
        WalkNeverEnds(src, q, k);
      }
    }
  }

  // ----- back again

  /** After a next link, the prev link, printed and read back like any other, leads
      to the page it came from, except from the capped last page. */
  lemma PrevUndoesNext(src: Source, q: SearchQuery, next: SearchQuery)
    requires Steady(src) && Accepted(q)
    requires Serving(src).respond(q).Ok? && Serving(src).respond(q).value.nextToken != ""
    requires Serving(src).follow(q, Serving(src).respond(q).value.nextToken) == Some(next)
    ensures Serving(src).respond(next).Ok? ==>
      var token := Serving(src).respond(next).value.prevToken;
      && token != "" && Serving(src).follow(next, token).Some?
      && var back := Serving(src).follow(next, token).value;
      && (EffectivePage(back) == EffectivePage(q) <==> EffectivePage(q) < MAX_PAGE)
      && (EffectivePage(q) < MAX_PAGE ==> Serving(src).respond(back) == Serving(src).respond(q))
  {
    var site := Serving(src);
    var token := site.respond(q).value.nextToken;
    ServingIsNavigable(src);
    assert site.follow(q, token) == Some(Followed(q, token)) && Accepted(next);
    if site.respond(next).Ok? {
      var back := site.respond(next).value.prevToken;
      BackAgain(src, q, next, back);
      assert site.follow(next, back) == Some(Followed(next, back));
    }
  }

  lemma BackAgain(src: Source, q: SearchQuery, next: SearchQuery, token: string)
    requires Steady(src) && Response(src, q).Ok? && Response(src, q).value.nextToken != ""
    requires next == Followed(q, Response(src, q).value.nextToken)
    requires Response(src, next).Ok? && token == Response(src, next).value.prevToken
    ensures token != ""
    ensures EffectivePage(Followed(next, token)) == EffectivePage(q) <==> EffectivePage(q) < MAX_PAGE
    ensures EffectivePage(q) < MAX_PAGE ==> Response(src, Followed(next, token)) == Response(src, q)
  {
    OneStep(src, q);
    PrevToken(src, next);
    FollowingMovesThePage(next, EffectivePage(next) - 1);
    if EffectivePage(q) < MAX_PAGE {
      assert src.list(Followed(next, token)) == src.list(next) == src.list(q);
      SameResponse(src, q, Followed(next, token));
    }
  }

  lemma PrevToken(src: Source, q: SearchQuery)
    requires Response(src, q).Ok? && EffectivePage(q) > 1
    ensures Response(src, q).value.prevToken == EncodeToken(EffectivePage(q) - 1)
  {
  }

  lemma SameResponse(src: Source, q: SearchQuery, r: SearchQuery)
    requires src.list(q) == src.list(r) && src.runs(q) == src.runs(r)
    requires ClampSize(q.pageSize) == ClampSize(r.pageSize) && EffectivePage(q) == EffectivePage(r)
    requires q.totalRequired == r.totalRequired
    ensures Response(src, q) == Response(src, r)
  {
  }

  // ----- over reachable stores

  /** Over any store that calls can produce, a walk for a text with U+0000 shows
      nothing.  For any other query a walk from the first page shows the whole list
      exactly when both times of every selected agent's last import have four-digit
      years; it then shows each selected agent exactly once, in the documented
      order. */
  lemma WalkShowsTheSelection(steps: seq<Step>, q: SearchQuery, e: Engine, k: nat)
    requires Accepted(q) && EffectivePage(q) == 1
    requires |List(Run(EMPTY, steps), q, e)| <= MAX_PAGE * ClampSize(q.pageSize)
    requires k >= 1 && k >= Pages(|List(Run(EMPTY, steps), q, e)|, ClampSize(q.pageSize))
    ensures
      var db := Run(EMPTY, steps);
      var shown := Items(Walk(Serving(SourceOf(db, e)), q, k));
      && (!NulFree(q.text) ==> shown == [])
      && (NulFree(q.text) ==> (shown == List(db, q, e) <==>
            forall a :: a in db.agents && Selects(q, a, Indexed(a), e.matches) ==> ImportedDatable(steps, a.id)))
      && (NulFree(q.text) && shown == List(db, q, e) ==>
            && (forall a :: a in shown <==> a in db.agents && Selects(q, a, Indexed(a), e.matches))
            && (forall i, j :: 0 <= i < j < |shown| ==> shown[i] != shown[j])
            && InOrder(OrderBy(q.text, e), shown))
  {
    var db := Run(EMPTY, steps);
    StoreIsSteady(db, e);
    FtsReadsTheFields(q.text);
    WalkVisitsEverything(SourceOf(db, e), q, k);
    ListIsTheSelection(steps, q, e);
    LegibleIsImportedDatable(steps, List(db, q, e));
    assert forall a :: a in List(db, q, e) <==> exists i :: 0 <= i < |List(db, q, e)| && List(db, q, e)[i] == a;
  }

  /** Both times of the last import of the id have four-digit years. */
  predicate ImportedDatable(steps: seq<Step>, id: string) {
    var last := LastNamed(CommittedAgents(EMPTY, steps), id);
    last.Some? && Datable(last.value)
  }

  lemma LegibleIsImportedDatable(steps: seq<Step>, rows: seq<Agent>)
    requires forall i :: 0 <= i < |rows| ==> rows[i] in Run(EMPTY, steps).agents
    ensures AllLegible(rows, DatableRow()) <==> forall i :: 0 <= i < |rows| ==> ImportedDatable(steps, rows[i].id)
  {
    forall i | 0 <= i < |rows|
      ensures DatableRow()(rows[i]) <==> ImportedDatable(steps, rows[i].id)
    {
      RowIsLastImport(steps, rows[i]);
      StoredOnce(LastNamed(CommittedAgents(EMPTY, steps), rows[i].id).value);
    }
  }
}
