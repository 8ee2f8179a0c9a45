/** agent-ra-sync: drain the feed, enrich each agent with its transparency-log
    badge, and rewrite the fixture directory. */
module Sync {
  import opened Text
  import opened Merge
  import opened TlEvent
  import F = Feed
  import L = FeedLaws

  const DEFAULT_PAGE_SIZE := 100
  const MAX_PAGE_SIZE := 200

  function NormalizePageSize(n: int): (r: nat)
    ensures 1 <= r <= MAX_PAGE_SIZE
  {
    if n <= 0 then DEFAULT_PAGE_SIZE else if n > MAX_PAGE_SIZE then MAX_PAGE_SIZE else n
  }

  datatype Summary = Summary(captured: nat, badgeMisses: nat, drops: nat)

  /** A badge lookup: found, missed, or cut short by the run's own deadline. */
  datatype Fetch = Badge(event: Event) | Miss | Cancelled

  /** The feed record merged with the badge, which is authoritative for status,
      first-seen, attestations, host and version when it was found. */
  function ToEvent(fa: F.Folded, badge: Fetch): Event {
    var found := badge.Badge?;
    var name := if fa.displayName == "" then fa.host else fa.displayName;
    var status := if found && badge.event.status != "" then badge.event.status else fa.status;
    var host := if found && badge.event.agent.host != "" then badge.event.agent.host else fa.host;
    var version := if found && badge.event.agent.version != "" then badge.event.agent.version else fa.version;
    var firstSeen := if found && badge.event.firstSeen != "" then badge.event.firstSeen else fa.firstSeen;
    Event(fa.agentId, status, "", firstSeen, if fa.lastUpdated == "" then firstSeen else fa.lastUpdated,
          AgentBlock(host, version, name, fa.description,
                     Dedupe(NonEmpty(ProtocolsIn(fa.endpoints))), Dedupe(NonEmpty(TransportsIn(fa.endpoints))),
                     ProjectedAll(fa.endpoints)),
          if found then badge.event.attestations else UNSEALED)
  }

  /** toEvent, field by field. */
  method BuildEvent(fa: F.Folded, badge: Fetch) returns (ev: Event)
    ensures ev == ToEvent(fa, badge)
  {
    var name := fa.displayName;
    if name == "" {
      name := fa.host;
    }
    var protocols, transports := ProtocolsAndTransports(fa.endpoints);
    var endpoints := ProjectEndpoints(fa.endpoints);
    ev := Event(fa.agentId, fa.status, "", "", fa.lastUpdated,
                AgentBlock(fa.host, fa.version, name, fa.description, protocols, transports, endpoints), UNSEALED);
    if badge.Badge? {
      if badge.event.status != "" {
        ev := ev.(status := badge.event.status);
      }
      ev := ev.(firstSeen := badge.event.firstSeen, attestations := badge.event.attestations);
      if badge.event.agent.host != "" {
        ev := ev.(agent := ev.agent.(host := badge.event.agent.host));
      }
      if badge.event.agent.version != "" {
        ev := ev.(agent := ev.agent.(version := badge.event.agent.version));
      }
    }
    if ev.firstSeen == "" {
      ev := ev.(firstSeen := fa.firstSeen);
    }
    if ev.lastUpdated == "" {
      ev := ev.(lastUpdated := ev.firstSeen);
    }
  }

  /** The five badge fields that can win: the attestations always, and status,
      first-seen, host and version when they are not empty. */
  predicate SameSeal(b: Event, c: Event) {
    && b.attestations == c.attestations && b.status == c.status && b.firstSeen == c.firstSeen
    && b.agent.host == c.agent.host && b.agent.version == c.agent.version
  }

  const BLANK_EVENT := Event("", "", "", "", "", AgentBlock("", "", "", "", [], [], []), UNSEALED)

  /** Nothing else of a badge matters, its name and last-updated time included; a
      badge blank in all five is as good as none; and the five that are given reach
      the fixture whatever the feed says. */
  lemma FiveBadgeFieldsWin(fa: F.Folded, other: F.Folded, b: Event, c: Event)
    ensures SameSeal(b, c) ==> ToEvent(fa, Badge(b)) == ToEvent(fa, Badge(c))
    ensures SameSeal(b, BLANK_EVENT) ==> ToEvent(fa, Badge(b)) == ToEvent(fa, Miss)
    ensures b.status != "" && b.firstSeen != "" && b.agent.host != "" && b.agent.version != "" ==>
      SameSeal(ToEvent(fa, Badge(b)), b) && SameSeal(ToEvent(other, Badge(b)), b)
  {
  }

  /** Without a badge everything is the feed's: the name falls back to the host, the
      last update to the first sighting, the sets hold what the endpoints name, and
      nothing is sealed. */
  lemma FeedFillsTheRest(fa: F.Folded)
    ensures
      var ev := ToEvent(fa, Miss);
      && ev.ansId == fa.agentId && ev.status == fa.status && ev.providerId == ""
      && ev.firstSeen == fa.firstSeen && (fa.lastUpdated != "" ==> ev.lastUpdated == fa.lastUpdated)
      && (fa.lastUpdated == "" ==> ev.lastUpdated == fa.firstSeen)
      && ev.agent.host == fa.host && ev.agent.version == fa.version && ev.agent.description == fa.description
      && (fa.displayName != "" ==> ev.agent.name == fa.displayName) && (fa.displayName == "" ==> ev.agent.name == fa.host)
      && ev.attestations.serverCert == "" && ev.attestations.identityCert == "" && ev.attestations.ans == ""
      && ev.attestations.ansBadge == "" && ev.attestations.dnssecStatus == ""
      && (forall x :: x in ev.agent.protocols <==> x != "" && exists i :: 0 <= i < |fa.endpoints| && fa.endpoints[i].protocol == x)
      && (forall x :: x in ev.agent.transports <==> x != "" && exists i :: 0 <= i < |fa.endpoints| && x in fa.endpoints[i].transports)
  {
    DedupeMembers(NonEmpty(ProtocolsIn(fa.endpoints)));
    DedupeMembers(NonEmpty(TransportsIn(fa.endpoints)));
    NonEmptyMembers(ProtocolsIn(fa.endpoints));
    NonEmptyMembers(TransportsIn(fa.endpoints));
    EndpointMembers(fa.endpoints);
  }

  lemma {:induction false} EndpointMembers(eps: seq<F.Endpoint>)
    ensures forall x :: x in ProtocolsIn(eps) <==> exists i :: 0 <= i < |eps| && eps[i].protocol == x
    ensures forall x :: x in TransportsIn(eps) <==> exists i :: 0 <= i < |eps| && x in eps[i].transports
  {
    if eps != [] {
      var front := eps[..|eps| - 1];
      EndpointMembers(front);
      assert forall i :: 0 <= i < |front| ==> front[i] == eps[i];
      forall x
        ensures x in ProtocolsIn(eps) <==> exists i :: 0 <= i < |eps| && eps[i].protocol == x
        ensures x in TransportsIn(eps) <==> exists i :: 0 <= i < |eps| && x in eps[i].transports
      {
        if i :| 0 <= i < |eps| && eps[i].protocol == x && i < |front| {
          assert front[i].protocol == x;
        }
        if i :| 0 <= i < |eps| && x in eps[i].transports && i < |front| {
          assert x in front[i].transports;
        }
      }
    }
  }

  // ----- file names

  predicate SafeChar(c: char) {
    'a' <= c <= 'z' || 'A' <= c <= 'Z' || '0' <= c <= '9' || c == '-' || c == '_' || c == '.'
  }

  function SafeFileName(s: string): (r: string)
    ensures s != "" ==> |r| == |s|
  {
    if s == "" then "unnamed" else seq(|s|, i requires 0 <= i < |s| => if SafeChar(s[i]) then s[i] else '_')
  }

  function FileName(id: string): string {
    SafeFileName(id) + ".yaml"
  }

  predicate Yaml(name: string) {
    |name| >= 5 && name[|name| - 5..] == ".yaml"
  }

  predicate SafeId(id: string) {
    id != "" && forall i :: 0 <= i < |id| ==> SafeChar(id[i])
  }

  lemma SafeIdsKeepTheirNames(id: string, other: string)
    requires SafeId(id) && SafeId(other)
    ensures FileName(id) == id + ".yaml"
    ensures FileName(id) == FileName(other) ==> id == other
  {
    assert SafeFileName(id) == id && SafeFileName(other) == other;
    assert FileName(id)[..|FileName(id)| - 5] == id && FileName(other)[..|FileName(other)| - 5] == other;
  }

  /** Character by character: the safe ones stay, every other one becomes '_', and the
      empty id is called "unnamed"; no name leads out of the directory. */
  lemma FileNameCharwise(id: string)
    ensures id == "" ==> FileName(id) == "unnamed" + ".yaml"
    ensures id != "" ==> |FileName(id)| == |id| + 5 && FileName(id)[|id|..] == ".yaml"
    ensures forall i :: 0 <= i < |id| ==>
      var c := id[i];
      FileName(id)[i] ==
        if 'a' <= c <= 'z' || 'A' <= c <= 'Z' || '0' <= c <= '9' || c == '-' || c == '_' || c == '.' then c else '_'
    ensures '/' !in FileName(id)
  {
    var stem := SafeFileName(id);
    assert FileName(id)[|stem|..] == ".yaml";
    assert forall i :: 0 <= i < |stem| ==> FileName(id)[i] == stem[i];
    NoSlash(stem);
  }

  lemma NoSlash(stem: string)
    requires forall i :: 0 <= i < |stem| ==> SafeChar(stem[i])
    ensures '/' !in stem + ".yaml"
  {
    var name := stem + ".yaml";
    forall i | 0 <= i < |name|
      ensures name[i] != '/'
    {
      if i >= |stem| {
        assert name[i] == ".yaml"[i - |stem|];
      }
    }
  }

  lemma YamlMeans(name: string)
    ensures Yaml(name) <==> |name| >= 5 && name == name[..|name| - 5] + ".yaml"
  {
  }

  /** Outside the alphabet two agents can share a file. */
  lemma UnsafeIdsCollide()
    ensures "a/b" != "a_b" && FileName("a/b") == FileName("a_b")
  {
    assert SafeFileName("a/b") == "a_b" == SafeFileName("a_b");
    assert "a/b"[1] != "a_b"[1];
  }

  lemma FileNamesAreYaml(id: string)
    ensures Yaml(FileName(id))
  {
    assert FileName(id)[|SafeFileName(id)|..] == ".yaml";
  }

  // ----- the run

  datatype File = Fixture(event: Event) | Blob(bytes: string)

  class Directory {
    var files: map<string, File>

    constructor ()
      ensures files == map[]
    {
      files := map[];
    }
  }

  /** Everything outside the process: badges, which names can be written, and
      which texts are RFC 3339 timestamps. */
  datatype World = World(tl: string -> Fetch, writable: string -> bool, rfc3339: string -> bool)

  /** What a run will find for each folded agent, before it visits any. */
  datatype Plan = Plan(events: map<string, Event>, good: set<string>, missed: set<string>, cut: set<string>)

  function PlanFor(w: World, agents: map<string, F.Folded>): (p: Plan)
    ensures p.events.Keys == agents.Keys && p.good <= agents.Keys && p.missed <= agents.Keys && p.cut <= agents.Keys
  {
    Plan(map id | id in agents :: ToEvent(agents[id], w.tl(id)),
         set id | id in agents && WellFormed(ToEvent(agents[id], w.tl(id)), w.rfc3339),
         set id | id in agents && w.tl(id).Miss?,
         set id | id in agents && w.tl(id).Cancelled?)
  }

  /** Which agents get a fixture: those whose merged event has an id, host, version and
      name, one of the five states, and two timestamps. */
  lemma GoodExactly(w: World, agents: map<string, F.Folded>, id: string)
    requires id in agents
    ensures
      var p, e := PlanFor(w, agents), ToEvent(agents[id], w.tl(id));
      && p.events[id] == e
      && (id in p.missed <==> w.tl(id) == Miss) && (id in p.cut <==> w.tl(id) == Cancelled)
      && (id in p.good <==>
            && e.ansId != "" && e.agent.host != "" && e.agent.version != "" && e.agent.name != ""
            && e.status in {"ACTIVE", "WARNING", "DEPRECATED", "EXPIRED", "REVOKED"}
            && e.firstSeen != "" && w.rfc3339(e.firstSeen) && e.lastUpdated != "" && w.rfc3339(e.lastUpdated))
  {
  }

  /** The fixtures of a set of agents: each file holds the event of one of them
      that owns its name, and each of them has a file. */
  ghost predicate Written(events: map<string, Event>, ids: set<string>, files: map<string, File>) {
    && ids <= events.Keys
    && (forall name :: name in files && Yaml(name) ==>
          exists id :: id in ids && FileName(id) == name && files[name] == Fixture(events[id]))
    && (forall id :: id in ids ==> FileName(id) in files)
  }

  ghost predicate SameOthers(before: map<string, File>, after: map<string, File>) {
    forall name :: !Yaml(name) ==> (name in after <==> name in before) && (name in before ==> after[name] == before[name])
  }

  /** Whether the loop over the agents can finish, in any order. */
  ghost predicate Passable(p: Plan, writable: string -> bool) {
    p.cut == {} && forall id :: id in p.good ==> writable(FileName(id))
  }

  /** The counters after a set of agents has been visited. */
  function Count(p: Plan, ids: set<string>): Summary {
    Summary(|ids * p.good|, |ids * p.missed|, |ids - p.good|)
  }

  lemma OneMore(ids: set<string>, marked: set<string>, id: string)
    requires id !in ids
    ensures (ids + {id}) * marked == if id in marked then ids * marked + {id} else ids * marked
    ensures |(ids + {id}) * marked| == if id in marked then |ids * marked| + 1 else |ids * marked|
    ensures |(ids + {id}) - marked| == if id in marked then |ids - marked| else |ids - marked| + 1
  {
    if id in marked {
      assert (ids + {id}) * marked == ids * marked + {id};
      assert (ids + {id}) - marked == ids - marked;
    } else {
      assert (ids + {id}) * marked == ids * marked;
      assert (ids + {id}) - marked == (ids - marked) + {id};
    }
  }

  /** What one more visited agent adds. */
  function Tick(s: Summary, missed: bool, good: bool): Summary {
    Summary(if good then s.captured + 1 else s.captured,
            if missed then s.badgeMisses + 1 else s.badgeMisses,
            if good then s.drops else s.drops + 1)
  }

  lemma CountOne(p: Plan, before: set<string>, id: string)
    requires id !in before
    ensures Count(p, before + {id}) == Tick(Count(p, before), id in p.missed, id in p.good)
  {
    OneMore(before, p.good, id);
    OneMore(before, p.missed, id);
  }

  lemma WriteOne(events: map<string, Event>, ids: set<string>, files: map<string, File>, id: string)
    requires id in events && Written(events, ids, files)
    ensures Written(events, ids + {id}, files[FileName(id) := Fixture(events[id])])
  {
    var after := files[FileName(id) := Fixture(events[id])];
    forall name | name in after && Yaml(name)
      ensures exists k :: k in ids + {id} && FileName(k) == name && after[name] == Fixture(events[k])
    {
      if name != FileName(id) {
        var k :| k in ids && FileName(k) == name && files[name] == Fixture(events[k]);
        assert k in ids + {id};
      } else {
        assert id in ids + {id};
      }
    }
  }

  /** The state of the run once the given agents have been visited. */
  ghost predicate Visited(p: Plan, writable: string -> bool, ids: set<string>, s: Summary,
                          before: map<string, File>, files: map<string, File>) {
    && s == Count(p, ids)
    && Written(p.events, ids * p.good, files)
    && SameOthers(before, files)
    && ids * p.cut == {}
    && (forall id :: id in ids * p.good ==> writable(FileName(id)))
  }

  lemma DropOne(p: Plan, writable: string -> bool, ids: set<string>, s: Summary,
                before: map<string, File>, files: map<string, File>, id: string)
    requires Visited(p, writable, ids, s, before, files) && id !in ids && id !in p.cut && id !in p.good
    ensures Visited(p, writable, ids + {id}, Tick(s, id in p.missed, false), before, files)
  {
    CountOne(p, ids, id);
    OneMore(ids, p.good, id);
    OneMore(ids, p.cut, id);
  }

  lemma KeepOne(p: Plan, writable: string -> bool, ids: set<string>, s: Summary,
                before: map<string, File>, files: map<string, File>, id: string)
    requires Visited(p, writable, ids, s, before, files) && id !in ids && id !in p.cut && id in p.good
    requires id in p.events && writable(FileName(id))
    ensures Visited(p, writable, ids + {id}, Tick(s, id in p.missed, true), before, files[FileName(id) := Fixture(p.events[id])])
  {
    CountOne(p, ids, id);
    OneMore(ids, p.good, id);
    OneMore(ids, p.cut, id);
    FileNamesAreYaml(id);
    YamlOnly(before, files, FileName(id), Fixture(p.events[id]));
    WriteOne(p.events, ids * p.good, files, id);
  }

  lemma Unwritable(p: Plan, writable: string -> bool, id: string)
    requires id in p.good && !writable(FileName(id))
    ensures !Passable(p, writable)
  {
  }

  lemma YamlOnly(before: map<string, File>, files: map<string, File>, name: string, f: File)
    requires SameOthers(before, files) && Yaml(name)
    ensures SameOthers(before, files[name := f])
  {
  }

  method WriteFixture(dir: Directory, writable: string -> bool, ev: Event) returns (ok: bool)
    modifies dir
    ensures ok == writable(FileName(ev.ansId))
    ensures dir.files == if ok then old(dir.files)[FileName(ev.ansId) := Fixture(ev)] else old(dir.files)
  {
    ok := writable(FileName(ev.ansId));
    if ok {
      dir.files := dir.files[FileName(ev.ansId) := Fixture(ev)];
    }
  }

  /** The rest of one iteration, once the badge was looked up and merged. */
  method CaptureOne(dir: Directory, writable: string -> bool, ev: Event, missed: bool, good: bool, s0: Summary)
    returns (s: Summary, err: Option<string>)
    modifies dir
    ensures err.Some? <==> good && !writable(FileName(ev.ansId))
    ensures err.None? ==> s == Tick(s0, missed, good)
    ensures dir.files ==
      if good && err.None? then old(dir.files)[FileName(ev.ansId) := Fixture(ev)] else old(dir.files)
  {
    s, err := s0, None;
    if missed {
      s := s.(badgeMisses := s.badgeMisses + 1);
    }
    if !good {
      s := s.(drops := s.drops + 1);
    } else {
      var ok := WriteFixture(dir, writable, ev);
      if !ok {
        return s, Some("rasync: write " + ev.ansId);
      }
      s := s.(captured := s.captured + 1);
    }
  }

  /** Looks one agent up and merges it. */
  method Look(agents: map<string, F.Folded>, w: World, id: string) returns (cut: bool, missed: bool, ev: Event, good: bool)
    requires id in agents
    ensures id in PlanFor(w, agents).events && ev == PlanFor(w, agents).events[id] && ev.ansId == agents[id].agentId
    ensures cut <==> id in PlanFor(w, agents).cut
    ensures missed <==> id in PlanFor(w, agents).missed
    ensures good <==> id in PlanFor(w, agents).good
  {
    var badge := w.tl(id);
    ev := BuildEvent(agents[id], badge);
    cut, missed, good := badge.Cancelled?, badge.Miss?, WellFormed(ev, w.rfc3339);
  }

  /** One iteration of the loop over the agents. */
  method CaptureNext(dir: Directory, agents: map<string, F.Folded>, w: World, id: string, s0: Summary,
                     ghost p: Plan, ghost visited: set<string>, ghost before: map<string, File>)
    returns (s: Summary, err: Option<string>)
    requires p == PlanFor(w, agents) && id in agents && agents[id].agentId == id && id !in visited
    requires Visited(p, w.writable, visited, s0, before, dir.files)
    modifies dir
    ensures err.None? ==> Visited(p, w.writable, visited + {id}, s, before, dir.files)
    ensures err.Some? ==> !Passable(p, w.writable) && dir.files == old(dir.files)
  {
    var cut, missed, ev, good := Look(agents, w, id);
    if cut {
      return s0, Some("rasync: tl enrichment aborted");
    }
    ghost var files := dir.files;
    s, err := CaptureOne(dir, w.writable, ev, missed, good, s0);
    if err.Some? {
      Unwritable(p, w.writable, id);
    } else if good {
      KeepOne(p, w.writable, visited, s0, before, files, id);
    } else {
      DropOne(p, w.writable, visited, s0, before, files, id);
    }
  }

  lemma NothingVisited(p: Plan, writable: string -> bool, files: map<string, File>)
    requires forall name :: name in files ==> !Yaml(name)
    ensures Visited(p, writable, {}, Summary(0, 0, 0), files, files)
  {
    assert {} * p.good == {} && {} * p.missed == {} && {} * p.cut == {} && {} - p.good == {};
  }

  lemma AllVisited(p: Plan, writable: string -> bool, all: set<string>, s: Summary, before: map<string, File>, files: map<string, File>)
    requires p.good <= all && p.cut <= all && Visited(p, writable, all, s, before, files)
    ensures Passable(p, writable)
  {
    assert all * p.good == p.good && all * p.cut == p.cut;
  }

  lemma OneLess(all: set<string>, remaining: set<string>, id: string)
    ensures all - all == {} && all - {} == all
    ensures id in remaining && remaining <= all ==> all - (remaining - {id}) == (all - remaining) + {id}
  {
  }

  /** A directory that a run may leave at any point after the old fixtures are
      gone: each fixture is the valid merged event of an agent that owns its name,
      and all other files are as they were. */
  ghost predicate Partial(p: Plan, before: map<string, File>, files: map<string, File>) {
    && SameOthers(before, files)
    && forall name :: name in files && Yaml(name) ==>
         exists id :: id in p.good && id in p.events && FileName(id) == name && files[name] == Fixture(p.events[id])
  }

  lemma VisitedIsPartial(p: Plan, writable: string -> bool, ids: set<string>, s: Summary,
                         before: map<string, File>, files: map<string, File>)
    requires Visited(p, writable, ids, s, before, files)
    ensures Partial(p, before, files)
  {
    forall name | name in files && Yaml(name)
      ensures exists id :: id in p.good && id in p.events && FileName(id) == name && files[name] == Fixture(p.events[id])
    {
      var id :| id in ids * p.good && FileName(id) == name && files[name] == Fixture(p.events[id]);
      assert id in p.good && id in p.events;
    }
  }

  /** Visits the agents in an arbitrary order. */
  method Capture(dir: Directory, agents: map<string, F.Folded>, w: World, ghost p: Plan) returns (s: Summary, err: Option<string>)
    requires p == PlanFor(w, agents)
    requires forall id :: id in agents ==> agents[id].agentId == id
    requires forall name :: name in dir.files ==> !Yaml(name)
    modifies dir
    ensures err.None? <==> Passable(p, w.writable)
    ensures err.None? ==> Visited(p, w.writable, agents.Keys, s, old(dir.files), dir.files)
    ensures Partial(p, old(dir.files), dir.files)
  {
    s, err := Summary(0, 0, 0), None;
    var remaining := agents.Keys;
    NothingVisited(p, w.writable, dir.files);
    OneLess(agents.Keys, remaining, "");
    while remaining != {}
      invariant remaining <= agents.Keys && err.None?
      invariant Visited(p, w.writable, agents.Keys - remaining, s, old(dir.files), dir.files)
      decreases remaining
    {
      var id :| id in remaining;
      ghost var visited := agents.Keys - remaining;
      VisitedIsPartial(p, w.writable, visited, s, old(dir.files), dir.files);
      s, err := CaptureNext(dir, agents, w, id, s, p, visited, old(dir.files));
      if err.Some? {
        return;
      }
      OneLess(agents.Keys, remaining, id);
      remaining := remaining - {id};
    }
    OneLess(agents.Keys, remaining, "");
    VisitedIsPartial(p, w.writable, agents.Keys, s, old(dir.files), dir.files);
    AllVisited(p, w.writable, agents.Keys, s, old(dir.files), dir.files);
  }

  // ----- the whole run

  /** The feed at each page size. */
  type FeedAt = nat -> F.Source

  /** The events a run sees, or None when its drain is aborted. */
  function Seen(feed: FeedAt, pageSize: int): Option<seq<F.Event>> {
    F.Drained(feed(NormalizePageSize(pageSize)), 0, "")
  }

  /** Removes the previous fixtures and leaves everything else. */
  method PrepareOutDir(dir: Directory)
    modifies dir
    ensures forall name :: name in dir.files ==> !Yaml(name)
    ensures SameOthers(old(dir.files), dir.files)
  {
    dir.files := map name | name in dir.files && !Yaml(name) :: dir.files[name];
  }

  /** When the capture of a plan succeeds, whatever the visiting order. */
  ghost predicate Accepts(p: Plan, writable: string -> bool) {
    p.events != map[] && Passable(p, writable) && p.good != {} && p.missed != p.events.Keys
  }

  lemma Accounting(p: Plan)
    requires p.good <= p.events.Keys && p.missed <= p.events.Keys
    ensures
      var c := Count(p, p.events.Keys);
      && c.captured + c.drops == |p.events|
      && (c.captured == 0 <==> p.good == {})
      && c.badgeMisses <= |p.events|
      && (c.badgeMisses == |p.events| <==> p.missed == p.events.Keys)
  {
    var all := p.events.Keys;
    assert all * p.good == p.good && all * p.missed == p.missed;
    assert all == p.good + (all - p.good) && all == p.missed + (all - p.missed);
    assert |all| == |p.missed| + |all - p.missed|;
    assert all - p.missed == {} <==> p.missed == all;
  }

  ghost predicate Outcome(p: Plan, s: Summary, before: map<string, File>, files: map<string, File>) {
    && s == Count(p, p.events.Keys)
    && s.captured + s.drops == |p.events| && s.captured > 0 && s.badgeMisses < |p.events|
    && Written(p.events, p.good, files) && SameOthers(before, files)
  }

  /** The checks after the loop. */
  method Conclude(total: nat, s: Summary, ghost p: Plan, writable: string -> bool,
                  ghost before: map<string, File>, ghost files: map<string, File>)
    returns (err: Option<string>)
    requires p.good <= p.events.Keys && p.missed <= p.events.Keys && p.cut <= p.events.Keys
    requires total == |p.events| && p.events != map[] && Passable(p, writable)
    requires Visited(p, writable, p.events.Keys, s, before, files)
    ensures err.None? <==> Accepts(p, writable)
    ensures err.None? ==> Outcome(p, s, before, files)
  {
    Accounting(p);
    assert p.events.Keys * p.good == p.good;
    if s.badgeMisses == total {
      return Some("rasync: all TL fetches failed; refusing all-degraded capture");
    }
    if s.captured == 0 {
      return Some("rasync: 0 written; refusing to produce empty snapshot");
    }
    return None;
  }

  /** The part of a run that follows a successful, non-empty fold. */
  method Produce(dir: Directory, agents: map<string, F.Folded>, w: World) returns (s: Summary, err: Option<string>)
    requires agents != map[] && forall id :: id in agents ==> agents[id].agentId == id
    modifies dir
    ensures err.None? <==> Accepts(PlanFor(w, agents), w.writable)
    ensures err.None? ==> Outcome(PlanFor(w, agents), s, old(dir.files), dir.files)
    ensures Partial(PlanFor(w, agents), old(dir.files), dir.files)
  {
    ghost var p := PlanFor(w, agents);
    PlanIsEmpty(w, agents);
    PrepareOutDir(dir);
    s, err := Capture(dir, agents, w, p);
    assert SameOthers(old(dir.files), dir.files);
    if err.None? {
      assert |p.events| == |agents.Keys| == |agents|;
      err := Conclude(|agents|, s, p, w.writable, old(dir.files), dir.files);
    }
  }

  lemma PlanIsEmpty(w: World, agents: map<string, F.Folded>)
    ensures PlanFor(w, agents).events == map[] <==> agents == map[]
  {
    var p := PlanFor(w, agents);
    assert agents == map[] <==> agents.Keys == {};
    assert p.events == map[] <==> p.events.Keys == {};
  }

  /** On success every folded agent is accounted for, some agent was captured,
      some badge was found, and the directory holds the valid merged events; an
      aborted drain or an empty feed leaves the directory alone, and a run that fails
      later leaves no fixture but valid merged events. */
  method Run(dir: Directory, feed: FeedAt, pageSize: int, w: World) returns (s: Summary, err: Option<string>)
    modifies dir
    ensures Seen(feed, pageSize).None? ==> err.Some? && dir.files == old(dir.files)
    ensures Seen(feed, pageSize).Some? ==>
      var p := PlanFor(w, F.Fold(Seen(feed, pageSize).value));
      && (p.events == map[] ==> dir.files == old(dir.files))
      && (err.None? <==> Accepts(p, w.writable))
      && (err.None? ==> Outcome(p, s, old(dir.files), dir.files))
      && (p.events != map[] ==> Partial(p, old(dir.files), dir.files))
  {
    var folded, fetches := F.DrainAndFold(feed(NormalizePageSize(pageSize)));
    if folded.Err? {
      return Summary(0, 0, 0), Some(folded.error);
    }
    PlanIsEmpty(w, folded.value);
    if folded.value == map[] {
      return Summary(0, 0, 0), Some("rasync: feed returned no agents in the retention window");
    }
    forall id | id in folded.value
      ensures folded.value[id].agentId == id
    {
      L.FoldIsSummary(Seen(feed, pageSize).value, id);
    }
    s, err := Produce(dir, folded.value, w);
  }

  /** Sizes from 1 to 200 reach the feed as configured; none means 100, and more than
      the feed takes means 200. */
  lemma ConfiguredSizeReachesFeed(feed: FeedAt, n: int)
    ensures 1 <= n <= 200 ==> Seen(feed, n) == F.Drained(feed(n), 0, "")
    ensures n <= 0 ==> Seen(feed, n) == F.Drained(feed(100), 0, "")
    ensures n > 200 ==> Seen(feed, n) == F.Drained(feed(200), 0, "")
  {
  }

  /** Against a feed that serves one log at every page size it accepts, the
      configured size does not show as long as the pages fit in the budget, even a
      size that has to be brought into range first. */
  lemma ConfiguredPageSizeIsIrrelevant(feed: FeedAt, log: seq<F.Event>, pageSize: int, other: int, blanks: bool)
    requires L.Numbered(log)
    requires forall limit :: 1 <= limit <= MAX_PAGE_SIZE ==> L.Faithful(feed(limit), log, limit, blanks)
    requires L.Needed(|log|, NormalizePageSize(pageSize), blanks) <= F.MAX_FEED_PAGES
    requires L.Needed(|log|, NormalizePageSize(other), blanks) <= F.MAX_FEED_PAGES
    ensures Seen(feed, pageSize) == Seen(feed, other) == Some(log)
  {
    var limit, size := NormalizePageSize(pageSize), NormalizePageSize(other);
    L.PageSizeIsIrrelevant(feed(limit), feed(size), log, limit, size, blanks, blanks);
  }

  // ----- what is on disk

  ghost predicate OwnNames(ids: set<string>) {
    forall id, other :: id in ids && other in ids && FileName(id) == FileName(other) ==> id == other
  }

  function YamlNames(files: map<string, File>): set<string> {
    set name | name in files && Yaml(name)
  }

  function Names(ids: set<string>): set<string> {
    set id | id in ids :: FileName(id)
  }

  lemma OneMoreName(rest: set<string>, x: string)
    requires x !in rest
    ensures Names(rest + {x}) == Names(rest) + {FileName(x)}
    ensures OwnNames(rest + {x}) <==> OwnNames(rest) && FileName(x) !in Names(rest)
  {
    if FileName(x) in Names(rest) {
      var y :| y in rest && FileName(y) == FileName(x);
      assert x in rest + {x} && y in rest + {x} && x != y;
    }
  }

  lemma {:induction false} NamesSize(ids: set<string>)
    ensures |Names(ids)| <= |ids|
    ensures |Names(ids)| == |ids| <==> OwnNames(ids)
    decreases ids
  {
    if ids != {} {
      var x :| x in ids;
      var rest := ids - {x};
      assert ids == rest + {x};
      NamesSize(rest);
      OneMoreName(rest, x);
    }
  }

  /** The directory holds one fixture per captured agent exactly when no two of
      them share a file name; it is then the same for every visiting order. */
  lemma FixturesAreTheValidEvents(events: map<string, Event>, ids: set<string>, files: map<string, File>)
    requires Written(events, ids, files)
    ensures YamlNames(files) == Names(ids)
    ensures |YamlNames(files)| == |ids| <==> OwnNames(ids)
    ensures OwnNames(ids) ==> forall id :: id in ids ==> files[FileName(id)] == Fixture(events[id])
    ensures (forall id :: id in ids ==> SafeId(id)) ==> OwnNames(ids)
  {
    forall id | id in ids
      ensures FileName(id) in YamlNames(files)
    {
      FileNamesAreYaml(id);
    }
    assert YamlNames(files) == Names(ids);
    NamesSize(ids);
    if forall id :: id in ids ==> SafeId(id) {
      forall id, other | id in ids && other in ids && FileName(id) == FileName(other)
        ensures id == other
      {
        SafeIdsKeepTheirNames(id, other);
      }
    }
  }

  /** Two runs over one plan, in whatever orders, leave the same fixtures. */
  lemma VisitingOrderIsIrrelevant(events: map<string, Event>, ids: set<string>, files: map<string, File>, other: map<string, File>)
    requires Written(events, ids, files) && Written(events, ids, other) && OwnNames(ids)
    ensures YamlNames(files) == YamlNames(other)
    ensures forall name :: name in YamlNames(files) ==> files[name] == other[name]
  {
    FixturesAreTheValidEvents(events, ids, files);
    FixturesAreTheValidEvents(events, ids, other);
  }
}
