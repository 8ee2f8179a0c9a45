/** Navigation links: a query printed as URL parameters, and read back. */
module Links {
  import opened Text
  import opened Decimal
  import opened Domain
  import opened Filters

  /** The parameter names of the search route. */
  datatype Key =
    | Query | PageSize | PageNumber | PageToken | PageTokenDirection | TotalRequired
    | ProviderIdsKey | StatusesKey | AgentDomainsKey | ProtocolsKey | TransportsKey | TagsKey | CapabilitiesKey

  type Values = map<Key, seq<string>>

  function All(v: Values, k: Key): seq<string> {
    if k in v then v[k] else []
  }

  function Get(v: Values, k: Key): string {
    if All(v, k) == [] then "" else All(v, k)[0]
  }

  // ----- printing

  /** What a query prints under each key. */
  function Printed(q: SearchQuery, k: Key): seq<string> {
    match k
    case Query => if q.text != "" then [q.text] else []
    case PageSize => if q.pageSize > 0 then [Itoa(q.pageSize)] else []
    case PageNumber => if q.page > 0 then [Itoa(q.page)] else []
    case PageToken => if q.pageToken != "" then [q.pageToken] else []
    case PageTokenDirection => []
    case TotalRequired => if q.totalRequired then ["true"] else []
    case ProviderIdsKey => q.providerIds
    case StatusesKey => q.statuses
    case AgentDomainsKey => q.agentDomains
    case ProtocolsKey => q.protocols
    case TransportsKey => q.transports
    case TagsKey => q.tags
    case CapabilitiesKey => q.capabilities
  }

  /** v.Add for every value. */
  method AddAll(v0: Values, k: Key, vals: seq<string>) returns (v: Values)
    ensures All(v, k) == All(v0, k) + vals
    ensures forall j :: j != k ==> All(v, j) == All(v0, j)
  {
    v := v0;
    for i := 0 to |vals|
      invariant All(v, k) == All(v0, k) + vals[..i]
      invariant forall j :: j != k ==> All(v, j) == All(v0, j)
    {
      v := v[k := All(v, k) + [vals[i]]];
    }
  }

  predicate Scalar(k: Key) {
    k.Query? || k.PageSize? || k.PageNumber? || k.PageToken? || k.TotalRequired?
  }

  method ScalarValues(q: SearchQuery) returns (v: Values)
    ensures forall k :: All(v, k) == if Scalar(k) then Printed(q, k) else []
  {
    v := map[];
    if q.text != "" {
      v := v[Query := [q.text]];
    }
    if q.pageSize > 0 {
      v := v[PageSize := [Itoa(q.pageSize)]];
    }
    if q.page > 0 {
      v := v[PageNumber := [Itoa(q.page)]];
    }
    if q.pageToken != "" {
      v := v[PageToken := [q.pageToken]];
    }
    if q.totalRequired {
      v := v[TotalRequired := ["true"]];
    }
  }

  predicate Listed(k: Key) {
    k.ProviderIdsKey? || k.StatusesKey? || k.AgentDomainsKey?
  }

  method ListedValues(q: SearchQuery, v0: Values) returns (v: Values)
    ensures forall k :: All(v, k) == if Listed(k) then All(v0, k) + Printed(q, k) else All(v0, k)
  {
    v := AddAll(v0, ProviderIdsKey, q.providerIds);
    v := AddAll(v, StatusesKey, q.statuses);
    v := AddAll(v, AgentDomainsKey, q.agentDomains);
  }

  predicate Advertised(k: Key) {
    k.ProtocolsKey? || k.TransportsKey?
  }

  method AdvertisedValues(q: SearchQuery, v0: Values) returns (v: Values)
    ensures forall k :: All(v, k) == if Advertised(k) then All(v0, k) + Printed(q, k) else All(v0, k)
  {
    v := AddAll(v0, ProtocolsKey, q.protocols);
    v := AddAll(v, TransportsKey, q.transports);
  }

  predicate Label(k: Key) {
    k.TagsKey? || k.CapabilitiesKey?
  }

  method LabelValues(q: SearchQuery, v0: Values) returns (v: Values)
    ensures forall k :: All(v, k) == if Label(k) then All(v0, k) + Printed(q, k) else All(v0, k)
  {
    v := AddAll(v0, TagsKey, q.tags);
    v := AddAll(v, CapabilitiesKey, q.capabilities);
  }

  method QueryValues(q: SearchQuery) returns (v: Values)
    ensures forall k :: All(v, k) == Printed(q, k)
  {
    v := ScalarValues(q);
    v := ListedValues(q, v);
    v := AdvertisedValues(q, v);
    v := LabelValues(q, v);
  }

  /** An empty token prints the query itself; another one replaces the cursor and
      drops the page number. */
  function Linked(q: SearchQuery, token: string, k: Key): seq<string> {
    if token == "" then Printed(q, k)
    else if k == PageToken then [token]
    else if k == PageNumber then []
    else Printed(q, k)
  }

  ghost predicate IsLink(v: Values, q: SearchQuery, token: string) {
    forall k :: All(v, k) == Linked(q, token, k)
  }

  /** The parameters of a link. */
  function Href(q: SearchQuery, token: string): (v: Values)
    ensures IsLink(v, q, token)
  {
    map k: Key | Linked(q, token, k) != [] :: Linked(q, token, k)
  }

  method HrefFor(q: SearchQuery, token: string) returns (v: Values)
    ensures IsLink(v, q, token)
  {
    v := QueryValues(q);
    if token != "" {
      v := v[PageToken := [token]];
      v := v - {PageNumber};
    }
  }

  // ----- reading

  function ParseInt(v: Values, k: Key): Option<GoInt> {
    if Get(v, k) == "" then Some(0) else Atoi(Get(v, k))
  }

  function ParseBool(s: string): Option<bool> {
    if s == "" then Some(false)
    else if s in ["1", "t", "T", "TRUE", "true", "True"] then Some(true)
    else if s in ["0", "f", "F", "FALSE", "false", "False"] then Some(false)
    else None
  }

  method ParseStatuses(raw: seq<string>) returns (r: Option<seq<string>>)
    ensures r == if ValidStatuses(raw) then Some(raw) else None
  {
    var out := [];
    for i := 0 to |raw|
      invariant out == raw[..i] && ValidStatuses(raw[..i])
    {
      if !ValidStatus(raw[i]) {
        return None;
      }
      out := out + [raw[i]];
      assert raw[..i + 1] == raw[..i] + [raw[i]];
    }
    assert raw[..|raw|] == raw;
    r := Some(out);
  }

  predicate ValidDirection(s: string) {
    s == "" || s == "forward" || s == "backward"
  }

  /** The query that parameters denote, or None for a rejected request. */
  function Parsed(v: Values): Option<SearchQuery> {
    if !ValidStatuses(All(v, StatusesKey)) then None
    else if ParseInt(v, PageSize).None? || ParseInt(v, PageNumber).None? || ParseBool(Get(v, TotalRequired)).None? then None
    else if !ValidDirection(Get(v, PageTokenDirection)) then None
    else
      var q := SearchQuery(
        Get(v, Query), All(v, ProviderIdsKey), All(v, StatusesKey), All(v, AgentDomainsKey),
        All(v, ProtocolsKey), All(v, TransportsKey), All(v, TagsKey), All(v, CapabilitiesKey),
        ParseInt(v, PageNumber).value, ParseInt(v, PageSize).value,
        Get(v, PageToken), Get(v, PageTokenDirection), ParseBool(Get(v, TotalRequired)).value);
      if FiltersFit(q) then Some(q) else None
  }

  /** What is rejected, parameter by parameter; everything else is read. */
  lemma RejectedExactly(v: Values)
    ensures Parsed(v).None? <==>
      || (exists i :: 0 <= i < |All(v, StatusesKey)| &&
            All(v, StatusesKey)[i] !in {"ACTIVE", "WARNING", "DEPRECATED", "EXPIRED", "REVOKED"})
      || (Get(v, PageSize) != "" && Atoi(Get(v, PageSize)) == None)
      || (Get(v, PageNumber) != "" && Atoi(Get(v, PageNumber)) == None)
      || Get(v, TotalRequired) !in {"", "1", "t", "T", "TRUE", "true", "True", "0", "f", "F", "FALSE", "false", "False"}
      || Get(v, PageTokenDirection) !in {"", "forward", "backward"}
      || |All(v, ProviderIdsKey)| > 100 || |All(v, StatusesKey)| > 100 || |All(v, AgentDomainsKey)| > 100
      || |All(v, ProtocolsKey)| > 100 || |All(v, TransportsKey)| > 100 || |All(v, TagsKey)| > 100 || |All(v, CapabilitiesKey)| > 100
    ensures Parsed(v).Some? ==>
      var q := Parsed(v).value;
      && q.text == Get(v, Query) && q.pageToken == Get(v, PageToken)
      && (if Get(v, PageSize) == "" then q.pageSize == 0 else Atoi(Get(v, PageSize)) == Some(q.pageSize))
      && (if Get(v, PageNumber) == "" then q.page == 0 else Atoi(Get(v, PageNumber)) == Some(q.page))
      && (q.totalRequired <==> Get(v, TotalRequired) in {"1", "t", "T", "TRUE", "true", "True"})
      && q.providerIds == All(v, ProviderIdsKey) && q.statuses == All(v, StatusesKey) && q.agentDomains == All(v, AgentDomainsKey)
      && q.protocols == All(v, ProtocolsKey) && q.transports == All(v, TransportsKey)
      && q.tags == All(v, TagsKey) && q.capabilities == All(v, CapabilitiesKey)
  {
    BoolMeans(Get(v, TotalRequired));
  }

  lemma BoolMeans(s: string)
    ensures ParseBool(s) == Some(true) <==> s in {"1", "t", "T", "TRUE", "true", "True"}
    ensures ParseBool(s) == Some(false) <==> s in {"", "0", "f", "F", "FALSE", "false", "False"}
  {
    var yes, no := ["1", "t", "T", "TRUE", "true", "True"], ["0", "f", "F", "FALSE", "false", "False"];
    assert s in yes <==> s == yes[0] || s == yes[1] || s == yes[2] || s == yes[3] || s == yes[4] || s == yes[5];
    assert s in no <==> s == no[0] || s == no[1] || s == no[2] || s == no[3] || s == no[4] || s == no[5];
    FirstLettersDiffer();
  }

  lemma FirstLettersDiffer()
    ensures {"1", "t", "T", "TRUE", "true", "True"} !! {"", "0", "f", "F", "FALSE", "false", "False"}
  {
    assert "1"[0] == '1' && "t"[0] == 't' && "T"[0] == 'T' && "TRUE"[0] == 'T' && "true"[0] == 't' && "True"[0] == 'T';
    assert "0"[0] == '0' && "f"[0] == 'f' && "F"[0] == 'F' && "FALSE"[0] == 'F' && "false"[0] == 'f' && "False"[0] == 'F';
  }

  method ParseSearchQuery(v: Values) returns (r: Option<SearchQuery>)
    ensures r == Parsed(v)
    ensures r.Some? ==> Accepted(r.value)
  {
    var statuses := ParseStatuses(All(v, StatusesKey));
    if statuses.None? {
      return None;
    }
    var pageSize := ParseInt(v, PageSize);
    if pageSize.None? {
      return None;
    }
    var page := ParseInt(v, PageNumber);
    if page.None? {
      return None;
    }
    var total := ParseBool(Get(v, TotalRequired));
    if total.None? {
      return None;
    }
    var direction := Get(v, PageTokenDirection);
    if !ValidDirection(direction) {
      return None;
    }
    var q := SearchQuery(
      Get(v, Query), All(v, ProviderIdsKey), statuses.value, All(v, AgentDomainsKey),
      All(v, ProtocolsKey), All(v, TransportsKey), All(v, TagsKey), All(v, CapabilitiesKey),
      page.value, pageSize.value, Get(v, PageToken), direction, total.value);
    if !FiltersFit(q) {
      return None;
    }
    return Some(q);
  }

  // ----- the round trip

  function NonNegative(n: GoInt): GoInt {
    if n > 0 then n else 0
  }

  /** What following a link asks for: the same filters, text, size and total, with
      the cursor moved. */
  function Followed(q: SearchQuery, token: string): SearchQuery {
    q.(page := if token == "" then NonNegative(q.page) else 0,
       pageSize := NonNegative(q.pageSize),
       pageToken := if token == "" then q.pageToken else token,
       pageTokenDirection := "")
  }

  lemma PrintedIntReads(n: GoInt)
    ensures n > 0 ==> Itoa(n) != "" && Atoi(Itoa(n)) == Some(n)
  {
    if n > 0 {
      AtoiOfItoa(n);
    }
  }

  lemma LinkNumbersRead(v: Values, q: SearchQuery, token: string)
    requires IsLink(v, q, token)
    ensures ParseInt(v, PageSize) == Some(NonNegative(q.pageSize))
    ensures ParseInt(v, PageNumber) == Some(if token == "" then NonNegative(q.page) else 0)
  {
    PrintedIntReads(q.pageSize);
    PrintedIntReads(q.page);
    assert All(v, PageSize) == Linked(q, token, PageSize);
    assert All(v, PageNumber) == Linked(q, token, PageNumber);
  }

  lemma LinkTextsRead(v: Values, q: SearchQuery, token: string)
    requires IsLink(v, q, token)
    ensures Get(v, Query) == q.text && Get(v, PageToken) == (if token == "" then q.pageToken else token)
    ensures Get(v, PageTokenDirection) == "" && ParseBool(Get(v, TotalRequired)) == Some(q.totalRequired)
  {
    assert All(v, Query) == Linked(q, token, Query);
    assert All(v, PageToken) == Linked(q, token, PageToken);
    assert All(v, PageTokenDirection) == Linked(q, token, PageTokenDirection);
    assert All(v, TotalRequired) == Linked(q, token, TotalRequired);
    assert "true" == ["1", "t", "T", "TRUE", "true", "True"][4];
  }

  lemma LinkListsRead(v: Values, q: SearchQuery, token: string)
    requires IsLink(v, q, token)
    ensures All(v, ProviderIdsKey) == q.providerIds && All(v, StatusesKey) == q.statuses
    ensures All(v, AgentDomainsKey) == q.agentDomains && All(v, ProtocolsKey) == q.protocols
    ensures All(v, TransportsKey) == q.transports && All(v, TagsKey) == q.tags && All(v, CapabilitiesKey) == q.capabilities
  {
    assert forall k :: All(v, k) == Linked(q, token, k);
  }

  /** Parameters that read field by field as an acceptable query read as it. */
  lemma ReadsAs(v: Values, q: SearchQuery)
    requires Get(v, Query) == q.text && Get(v, PageToken) == q.pageToken
    requires Get(v, PageTokenDirection) == q.pageTokenDirection == ""
    requires ParseBool(Get(v, TotalRequired)) == Some(q.totalRequired)
    requires ParseInt(v, PageSize) == Some(q.pageSize) && ParseInt(v, PageNumber) == Some(q.page)
    requires All(v, ProviderIdsKey) == q.providerIds && All(v, StatusesKey) == q.statuses
    requires All(v, AgentDomainsKey) == q.agentDomains && All(v, ProtocolsKey) == q.protocols
    requires All(v, TransportsKey) == q.transports && All(v, TagsKey) == q.tags && All(v, CapabilitiesKey) == q.capabilities
    requires FiltersFit(q) && ValidStatuses(q.statuses)
    ensures Parsed(v) == Some(q)
  {
  }

  /** No link printed for an accepted query is rejected, and reading it back
      changes nothing but the cursor (and the ignored direction). */
  lemma LinksReadBack(v: Values, q: SearchQuery, token: string)
    requires Accepted(q) && IsLink(v, q, token)
    ensures Parsed(v) == Some(Followed(q, token))
    ensures Accepted(Followed(q, token))
  {
    LinkNumbersRead(v, q, token);
    LinkTextsRead(v, q, token);
    LinkListsRead(v, q, token);
    ReadsAs(v, Followed(q, token));
  }
}
