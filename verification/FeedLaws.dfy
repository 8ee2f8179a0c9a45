/** What the fold computes, and why neither page boundaries nor redelivery show. */
module FeedLaws {
  import opened Text
  import opened Feed
  import opened PageCount

  // ----- the closed form

  function AnsNameOf(e: Event): string { e.ansName }
  function HostOf(e: Event): string { e.host }
  function VersionOf(e: Event): string { e.version }
  function DisplayNameOf(e: Event): string { e.displayName }
  function DescriptionOf(e: Event): string { e.description }
  function CreatedAtOf(e: Event): string { e.createdAt }
  function EndpointsOf(e: Event): seq<Endpoint> { e.endpoints }

  /** The relevant events of one agent, in feed order. */
  function Own(log: seq<Event>, id: string): seq<Event> {
    if log == [] then []
    else
      var e := log[|log| - 1];
      Own(log[..|log| - 1], id) + if Relevant(e) && e.agentId == id then [e] else []
  }

  /** The last non-empty occurrence of a field. */
  function Last<T>(events: seq<Event>, field: Event -> seq<T>): seq<T> {
    if events == [] then []
    else if |field(events[|events| - 1])| > 0 then field(events[|events| - 1])
    else Last(events[..|events| - 1], field)
  }

  /** The creation time of the first dated registration. */
  function FirstRegistered(events: seq<Event>): string {
    if events == [] then ""
    else if events[0].eventType == REGISTERED && events[0].createdAt != "" then events[0].createdAt
    else FirstRegistered(events[1..])
  }

  function Summary(events: seq<Event>): Folded
    requires events != []
  {
    var last := events[|events| - 1];
    Folded(last.agentId, Last(events, AnsNameOf), Last(events, HostOf), Last(events, VersionOf),
           Last(events, DisplayNameOf), Last(events, DescriptionOf), StatusFor(last.eventType),
           FirstRegistered(events), Last(events, CreatedAtOf), Last(events, EndpointsOf))
  }

  lemma {:induction false} LastConcat<T>(a: seq<Event>, b: seq<Event>, field: Event -> seq<T>)
    ensures Last(a + b, field) == Keep(Last(b, field), Last(a, field))
  {
    if b == [] {
      assert a + b == a;
    } else {
      assert (a + b)[..|a + b| - 1] == a + b[..|b| - 1];
      LastConcat(a, b[..|b| - 1], field);
    }
  }

  lemma {:induction false} FirstRegisteredConcat(a: seq<Event>, b: seq<Event>)
    ensures FirstRegistered(a + b) == Keep(FirstRegistered(a), FirstRegistered(b))
  {
    if a == [] {
      assert a + b == b;
    } else {
      assert (a + b)[1..] == a[1..] + b;
      FirstRegisteredConcat(a[1..], b);
    }
  }

  lemma SummarySnoc(events: seq<Event>, e: Event)
    ensures Summary(events + [e]) == Updated(if events == [] then BLANK else Summary(events), e)
  {
    LastConcat(events, [e], AnsNameOf);
    LastConcat(events, [e], HostOf);
    LastConcat(events, [e], VersionOf);
    LastConcat(events, [e], DisplayNameOf);
    LastConcat(events, [e], DescriptionOf);
    LastConcat(events, [e], CreatedAtOf);
    LastConcat(events, [e], EndpointsOf);
    FirstRegisteredConcat(events, [e]);
    assert [e][..0] == [] && [e][1..] == [];
  }

  /** Per agent: status from its last recognised event, each other field from its
      last non-empty occurrence, first-seen from the first dated registration;
      an agent is present exactly when some recognised event names it. */
  lemma {:induction false} FoldIsSummary(log: seq<Event>, id: string)
    ensures id in Fold(log) <==> Own(log, id) != []
    ensures id in Fold(log) ==> Fold(log)[id] == Summary(Own(log, id)) && Fold(log)[id].agentId == id && id != ""
  {
    if log != [] {
      var front, e := log[..|log| - 1], log[|log| - 1];
      FoldIsSummary(front, id);
      if Relevant(e) && e.agentId == id {
        SummarySnoc(Own(front, id), e);
      } else {
        assert Own(log, id) == Own(front, id);
      }
    }
  }

  /** An agent's record depends on its own events alone. */
  lemma OwnEventsDecide(log: seq<Event>, other: seq<Event>, id: string)
    requires Own(log, id) == Own(other, id)
    ensures id in Fold(log) <==> id in Fold(other)
    ensures id in Fold(log) ==> Fold(log)[id] == Fold(other)[id]
  {
    FoldIsSummary(log, id);
    FoldIsSummary(other, id);
  }

  // ----- in terms of the event names

  /** A lifecycle event of the agent: one of the four names, and an id. */
  predicate LifecycleOf(e: Event, id: string) {
    && e.agentId == id && id != ""
    && (e.eventType == "AGENT_REGISTERED" || e.eventType == "AGENT_RENEWED"
        || e.eventType == "AGENT_REVOKED" || e.eventType == "AGENT_DEPRECATED")
  }

  predicate LastLifecycle(log: seq<Event>, id: string, i: int) {
    0 <= i < |log| && LifecycleOf(log[i], id) && forall j :: i < j < |log| ==> !LifecycleOf(log[j], id)
  }

  /** The status that an event name stands for. */
  predicate Names(eventType: string, status: string) {
    && (status == "ACTIVE" <==> eventType == "AGENT_REGISTERED" || eventType == "AGENT_RENEWED")
    && (status == "REVOKED" <==> eventType == "AGENT_REVOKED")
    && (status == "DEPRECATED" <==> eventType == "AGENT_DEPRECATED")
  }

  /** An agent is in the fold exactly when the log has a lifecycle event of it, and
      its status is what the last of these names. */
  lemma {:induction false} StatusIsLastLifecycle(log: seq<Event>, id: string)
    ensures id in Fold(log) <==> exists i :: 0 <= i < |log| && LifecycleOf(log[i], id)
    ensures forall i :: LastLifecycle(log, id, i) ==> id in Fold(log) && Names(log[i].eventType, Fold(log)[id].status)
  {
    if log != [] {
      var front, e := log[..|log| - 1], log[|log| - 1];
      StatusIsLastLifecycle(front, id);
      RelevantIsLifecycle(e, id);
      assert log == front + [e];
      forall i | LastLifecycle(log, id, i) && i < |front|
        ensures LastLifecycle(front, id, i) && !LifecycleOf(e, id)
      {
        assert log[|front|] == e;
      }
      if exists i :: 0 <= i < |log| && LifecycleOf(log[i], id) {
        var i :| 0 <= i < |log| && LifecycleOf(log[i], id);
        assert i < |front| ==> front[i] == log[i];
      }
    }
  }

  lemma RelevantIsLifecycle(e: Event, id: string)
    ensures Relevant(e) && e.agentId == id <==> LifecycleOf(e, id)
    ensures LifecycleOf(e, id) ==> Names(e.eventType, StatusFor(e.eventType))
  {
    EventNamesDiffer();
  }

  lemma EventNamesDiffer()
    ensures "ACTIVE" != "REVOKED" && "REVOKED" != "DEPRECATED" && "ACTIVE" != "DEPRECATED"
    ensures "AGENT_REGISTERED" != "AGENT_REVOKED" && "AGENT_REGISTERED" != "AGENT_DEPRECATED" && "AGENT_REGISTERED" != "AGENT_RENEWED"
    ensures "AGENT_RENEWED" != "AGENT_REVOKED" && "AGENT_RENEWED" != "AGENT_DEPRECATED" && "AGENT_REVOKED" != "AGENT_DEPRECATED"
    ensures "ACTIVE" != "" && "REVOKED" != "" && "DEPRECATED" != ""
  {
    assert "ACTIVE"[0] == 'A' && "REVOKED"[0] == 'R' && "DEPRECATED"[0] == 'D';
    assert "AGENT_REGISTERED"[8] == 'G' && "AGENT_REVOKED"[8] == 'V' && "AGENT_RENEWED"[8] == 'N' && "AGENT_DEPRECATED"[6] == 'D';
    assert "AGENT_REGISTERED"[6] == 'R' && "AGENT_REVOKED"[6] == 'R' && "AGENT_RENEWED"[6] == 'R';
  }

  /** The drain ends with a page that is empty, blanks the cursor or leaves it where
      it was, and goes on behind any other. */
  lemma DrainGoesOn(source: Source, n: nat, cursor: string)
    requires n < 10_000
    ensures source(n, cursor).Err? ==> Drained(source, n, cursor) == None
    ensures source(n, cursor).Ok? ==>
      var page := source(n, cursor).value;
      Drained(source, n, cursor) ==
        if page.items == [] || page.lastLogId == "" || page.lastLogId == cursor then Some(page.items)
        else After(page.items, Drained(source, n + 1, page.lastLogId))
  {
  }

  lemma DrainIsBounded(source: Source, cursor: string)
    ensures Drained(source, 10_000, cursor) == None
  {
  }

  // ----- redelivery

  lemma {:induction false} OwnConcat(a: seq<Event>, b: seq<Event>, id: string)
    ensures Own(a + b, id) == Own(a, id) + Own(b, id)
  {
    if b == [] {
      assert a + b == a;
    } else {
      assert (a + b)[..|a + b| - 1] == a + b[..|b| - 1];
      OwnConcat(a, b[..|b| - 1], id);
    }
  }

  lemma LastRepeated<T>(p: seq<Event>, s: seq<Event>, field: Event -> seq<T>)
    ensures Last(p + s + s, field) == Last(p + s, field)
  {
    LastConcat(p + s, s, field);
    LastConcat(p, s, field);
  }

  lemma SummaryRepeated(p: seq<Event>, s: seq<Event>)
    requires p + s != []
    ensures Summary(p + s + s) == Summary(p + s)
  {
    LastRepeated(p, s, AnsNameOf);
    LastRepeated(p, s, HostOf);
    LastRepeated(p, s, VersionOf);
    LastRepeated(p, s, DisplayNameOf);
    LastRepeated(p, s, DescriptionOf);
    LastRepeated(p, s, CreatedAtOf);
    LastRepeated(p, s, EndpointsOf);
    FirstRegisteredConcat(p + s, s);
    FirstRegisteredConcat(p, s);
    if s == [] {
      assert p + s + s == p + s;
    }
  }

  /** Delivering any tail of the log a second time changes nothing. */
  lemma RedeliveryIsHarmless(log: seq<Event>, k: nat)
    requires k <= |log|
    ensures Fold(log + log[k..]) == Fold(log)
  {
    var again := log + log[k..];
    forall id
      ensures id in Fold(again) <==> id in Fold(log)
      ensures id in Fold(log) ==> Fold(again)[id] == Fold(log)[id]
    {
      var p, s := Own(log[..k], id), Own(log[k..], id);
      assert log == log[..k] + log[k..];
      OwnConcat(log[..k], log[k..], id);
      OwnConcat(log, log[k..], id);
      FoldIsSummary(log, id);
      FoldIsSummary(again, id);
      if p + s != [] {
        SummaryRepeated(p, s);
      }
    }
  }

  // ----- page boundaries

  ghost predicate Numbered(log: seq<Event>) {
    && (forall i :: 0 <= i < |log| ==> log[i].logId != "")
    && (forall i, j :: 0 <= i < j < |log| ==> log[i].logId != log[j].logId)
  }

  function CursorAt(log: seq<Event>, p: nat): string
    requires p <= |log|
  {
    if p == 0 then "" else log[p - 1].logId
  }

  function PageEnd(log: seq<Event>, limit: nat, p: nat): nat {
    if p + limit < |log| then p + limit else |log|
  }

  /** A feed that serves the log in ascending order, `limit` events at a time.
      After the last event it may blank the cursor (`blanks`) or repeat the last
      id, in which case one more, empty, page follows. */
  ghost predicate Faithful(source: Source, log: seq<Event>, limit: nat, blanks: bool) {
    forall n: nat, p: nat :: p <= |log| ==>
      var q := PageEnd(log, limit, p);
      && source(n, CursorAt(log, p)).Ok?
      && source(n, CursorAt(log, p)).value.items == log[p..q]
      && (p < q && (q < |log| || !blanks) ==> source(n, CursorAt(log, p)).value.lastLogId == log[q - 1].logId)
      && (p < q == |log| && blanks ==> source(n, CursorAt(log, p)).value.lastLogId == "")
  }

  /** How many fetches it takes to see n more events and their end. */
  function Needed(n: nat, limit: nat, blanks: bool): nat
    requires limit > 0
  {
    if blanks && n > 0 then Pages(n, limit) else Pages(n, limit) + 1
  }

  lemma {:induction false} DrainFrom(source: Source, log: seq<Event>, limit: nat, blanks: bool, n: nat, p: nat)
    requires Numbered(log) && limit > 0 && Faithful(source, log, limit, blanks)
    requires p <= |log| && n <= MAX_FEED_PAGES
    ensures Drained(source, n, CursorAt(log, p)) ==
      if n + Needed(|log| - p, limit, blanks) <= MAX_FEED_PAGES then Some(log[p..]) else None
    decreases MAX_FEED_PAGES - n
  {
    if n < MAX_FEED_PAGES {
      var q := PageEnd(log, limit, p);
      var cursor := CursorAt(log, p);
      var page := source(n, cursor).value;
      if p < q && !(q == |log| && blanks) {
        assert p > 0 ==> log[p - 1].logId != log[q - 1].logId;
        DrainFrom(source, log, limit, blanks, n + 1, q);
        assert CursorAt(log, q) == page.lastLogId;
        assert log[p..q] + log[q..] == log[p..];
      } else {
        assert q == |log| && page.items == log[p..];
      }
    }
  }

  /** Against a faithful feed the drain returns the fold of the whole log, whatever
      the page size, exactly when the pages it takes fit in the budget. */
  lemma DrainSeesTheWholeLog(source: Source, log: seq<Event>, limit: nat, blanks: bool)
    requires Numbered(log) && limit > 0 && Faithful(source, log, limit, blanks)
    ensures Drained(source, 0, "").Some? <==> Needed(|log|, limit, blanks) <= MAX_FEED_PAGES
    ensures Drained(source, 0, "").Some? ==> Drained(source, 0, "").value == log
  {
    DrainFrom(source, log, limit, blanks, 0, 0);
  }

  /** Two page sizes, two tail conventions, one result. */
  lemma PageSizeIsIrrelevant(source: Source, other: Source, log: seq<Event>, limit: nat, size: nat, blanks: bool, blanks': bool)
    requires Numbered(log) && limit > 0 && size > 0
    requires Faithful(source, log, limit, blanks) && Faithful(other, log, size, blanks')
    requires Needed(|log|, limit, blanks) <= MAX_FEED_PAGES && Needed(|log|, size, blanks') <= MAX_FEED_PAGES
    ensures Drained(source, 0, "") == Drained(other, 0, "") == Some(log)
  {
    DrainSeesTheWholeLog(source, log, limit, blanks);
    DrainSeesTheWholeLog(other, log, size, blanks');
  }
}
