/** The registration authority's event feed, drained page by page and folded
    into one current record per agent. */
module Feed {
  import opened Text

  const MAX_FEED_PAGES := 10_000

  const REGISTERED := "AGENT_REGISTERED"
  const RENEWED := "AGENT_RENEWED"
  const REVOKED := "AGENT_REVOKED"
  const DEPRECATED := "AGENT_DEPRECATED"

  datatype Endpoint = Endpoint(url: string, protocol: string, transports: seq<string>)

  datatype Event = Event(
    logId: string, eventType: string, createdAt: string, agentId: string, ansName: string, host: string,
    displayName: string, description: string, version: string, endpoints: seq<Endpoint>)

  datatype Page = Page(items: seq<Event>, lastLogId: string)

  /** The zero value has empty fields throughout. */
  datatype Folded = Folded(
    agentId: string, ansName: string, host: string, version: string, displayName: string, description: string,
    status: string, firstSeen: string, lastUpdated: string, endpoints: seq<Endpoint>)

  const BLANK := Folded("", "", "", "", "", "", "", "", "", [])

  predicate ReachedEnd(p: Page, cursor: string) {
    p.lastLogId == "" || p.lastLogId == cursor || p.items == []
  }

  /** An unrecognised event type has no status. */
  function StatusFor(eventType: string): string {
    if eventType == REGISTERED || eventType == RENEWED then "ACTIVE"
    else if eventType == REVOKED then "REVOKED"
    else if eventType == DEPRECATED then "DEPRECATED"
    else ""
  }

  predicate Relevant(e: Event) {
    StatusFor(e.eventType) != "" && e.agentId != ""
  }

  function Keep<T>(next: seq<T>, prior: seq<T>): seq<T> {
    if |next| > 0 then next else prior
  }

  function Updated(fa: Folded, e: Event): Folded {
    Folded(e.agentId, Keep(e.ansName, fa.ansName), Keep(e.host, fa.host), Keep(e.version, fa.version),
           Keep(e.displayName, fa.displayName), Keep(e.description, fa.description),
           StatusFor(e.eventType),
           if e.eventType == REGISTERED && fa.firstSeen == "" then e.createdAt else fa.firstSeen,
           Keep(e.createdAt, fa.lastUpdated), Keep(e.endpoints, fa.endpoints))
  }

  function ApplyEvent(agents: map<string, Folded>, e: Event): map<string, Folded> {
    if !Relevant(e) then agents
    else agents[e.agentId := Updated(if e.agentId in agents then agents[e.agentId] else BLANK, e)]
  }

  function Fold(log: seq<Event>): map<string, Folded> {
    if log == [] then map[] else ApplyEvent(Fold(log[..|log| - 1]), log[|log| - 1])
  }

  // ----- the drain

  /** Answers the n-th fetch, given the cursor; a failing fetch is an Err. */
  type Source = (nat, string) -> Result<Page>

  lemma FoldSnoc(log: seq<Event>, e: Event)
    ensures Fold(log + [e]) == ApplyEvent(Fold(log), e)
  {
    assert (log + [e])[..|log|] == log;
  }

  /** applyEvent over a page, in place. */
  method ApplyPage(agents: map<string, Folded>, items: seq<Event>, ghost log: seq<Event>) returns (out: map<string, Folded>)
    requires agents == Fold(log)
    ensures out == Fold(log + items)
  {
    out := agents;
    assert log + items[..0] == log;
    for i := 0 to |items|
      invariant out == Fold(log + items[..i])
    {
      var e := items[i];
      FoldSnoc(log + items[..i], e);
      assert log + items[..i + 1] == log + items[..i] + [e];
      if Relevant(e) {
        var fa := if e.agentId in out then out[e.agentId] else BLANK;
        out := out[e.agentId := Updated(fa, e)];
      }
    }
    assert items[..|items|] == items;
  }

  function After(log: seq<Event>, rest: Option<seq<Event>>): Option<seq<Event>> {
    match rest
    case None => None
    case Some(r) => Some(log + r)
  }

  lemma AfterAfter(log: seq<Event>, items: seq<Event>, rest: Option<seq<Event>>)
    ensures After(log, After(items, rest)) == After(log + items, rest)
    ensures After([], rest) == rest
  {
    if rest.Some? {
      assert log + (items + rest.value) == log + items + rest.value;
      assert [] + rest.value == rest.value;
    }
  }

  /** The events a drain sees from the n-th fetch on, or None when it is aborted. */
  function Drained(source: Source, n: nat, cursor: string): Option<seq<Event>>
    requires n <= MAX_FEED_PAGES
    decreases MAX_FEED_PAGES - n
  {
    if n == MAX_FEED_PAGES then None
    else
      match source(n, cursor)
      case Err(_) => None
      case Ok(page) =>
        if ReachedEnd(page, cursor) then Some(page.items)
        else After(page.items, Drained(source, n + 1, page.lastLogId))
  }

  /** Against any source whatever, the drain ends within the page budget; it
      succeeds exactly when the source reached its end, and then the result is
      the fold of everything served. */
  method DrainAndFold(source: Source) returns (r: Result<map<string, Folded>>, fetches: nat)
    ensures 1 <= fetches <= MAX_FEED_PAGES
    ensures r.Ok? <==> Drained(source, 0, "").Some?
    ensures r.Ok? ==> r.value == Fold(Drained(source, 0, "").value)
  {
    var agents: map<string, Folded> := map[];
    var cursor := "";
    ghost var log: seq<Event> := [];
    fetches := 0;
    AfterAfter([], [], Drained(source, 0, ""));
    while fetches < MAX_FEED_PAGES
      invariant fetches <= MAX_FEED_PAGES
      invariant agents == Fold(log)
      invariant Drained(source, 0, "") == After(log, Drained(source, fetches, cursor))
    {
      var fetched := source(fetches, cursor);
      if fetched.Err? {
        return Err("rasync: fetch events: " + fetched.error), fetches + 1;
      }
      var page := fetched.value;
      agents := ApplyPage(agents, page.items, log);
      if ReachedEnd(page, cursor) {
        return Ok(agents), fetches + 1;
      }
      AfterAfter(log, page.items, Drained(source, fetches + 1, page.lastLogId));
      log := log + page.items;
      cursor := page.lastLogId;
      fetches := fetches + 1;
    }
    r := Err("rasync: feed did not terminate; aborting unbounded drain");
  }
}
