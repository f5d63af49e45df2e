/** The sticky cache under concurrency (src/live_nodes.cpp): calls from several threads, interleaved at the
    sections that hold the health lock or the routing lock. */
module LockSections {
  import opened Urls
  import opened NodeLists
  import opened NodeHealth
  import opened LiveNodes
  import RoutingTheorems

  /** A call in progress, named after what it has done so far. A removal is what a refresh does for one node that
      has disappeared; a probe is what ProbeDownNodes does for one node that it found Down, and the observation is
      what the request will come to. */
  datatype Call =
    | LookupBegun(hash: int)
    | LookupHasActive(hash: int, active: set<Url>)
    | LookupHasBoth(hash: int, active: set<Url>, quarantined: set<Url>)
    | LookupMissed(hash: int, active: set<Url>)
    | LookupTries(hash: int, active: set<Url>)
    | LookupChose(hash: int, node: Url)
    | LookupDone(node: Url)
    | ReportBegun(node: Url, observation: Observation)
    | ReportRecorded(node: Url)
    | ReportMustForget(node: Url)
    | ReportDone
    | RemovalBegun(node: Url)
    | RemovalMustForget(node: Url)
    | RemovalDone
    | ProbeListed(node: Url, observation: Observation)
    | ProbeSent(node: Url, observation: Observation)
    | ProbeDone

  datatype World = World(statuses: Statuses, sticky: map<int, Url>, attempts: nat, turn: nat, calls: map<nat, Call>)

  function QuarantinedNow(c: Config, w: World): set<Url> {
    QuarantinedSet(c.health, w.statuses)
  }

  /** One lock section of call `id`. */
  ghost function Section(c: Config, w: World, id: nat): World
    requires id in w.calls
  {
    match w.calls[id]
    case LookupBegun(h) =>
      w.(calls := w.calls[id := LookupHasActive(h, ActiveSet(c.health, w.statuses))])
    case LookupHasActive(h, active) =>
      w.(calls := w.calls[id := LookupHasBoth(h, active, QuarantinedNow(c, w))])
    case LookupHasBoth(h, active, quarantined) =>
      if h in w.sticky && w.sticky[h] in quarantined then
        if IsFirstForHash(c, w.sticky[h], InOrder(active), h) then w.(calls := w.calls[id := LookupDone(w.sticky[h])])
        else w.(calls := w.calls[id := LookupDone(NO_URL)], sticky := w.sticky - {h})
      else w.(calls := w.calls[id := LookupMissed(h, active)], sticky := w.sticky - {h})
    case LookupMissed(h, active) =>
      if QuarantinedNow(c, w) == {} then w.(calls := w.calls[id := LookupDone(NO_URL)])
      else if active == {} then w.(calls := w.calls[id := LookupTries(h, active)])
      else w.(attempts := Bump(w.attempts),
              calls := w.calls[id := if Bump(w.attempts) % Interval(c) == 0 then LookupTries(h, active)
                                     else LookupDone(NO_URL)])
    case LookupTries(h, active) =>
      var nodes := InOrder(QuarantinedNow(c, w));
      if nodes == [] then w.(calls := w.calls[id := LookupDone(NO_URL)])
      else
        var q := nodes[w.turn % |nodes|];
        w.(turn := Bump(w.turn),
           calls := w.calls[id := if IsFirstForHash(c, q, InOrder(active), h) then LookupChose(h, q)
                                  else LookupDone(NO_URL)])
    case LookupChose(h, q) =>
      w.(calls := w.calls[id := LookupDone(q)], sticky := w.sticky[h := q])
    case ReportBegun(u, o) =>
      w.(calls := w.calls[id := ReportRecorded(u)], statuses := Reported(c.health, w.statuses, u, o))
    case ReportRecorded(u) =>
      w.(calls := w.calls[id := if u in w.statuses && w.statuses[u].state == Quarantined then ReportDone
                                else ReportMustForget(u)])
    case ReportMustForget(u) =>
      w.(calls := w.calls[id := ReportDone], sticky := WithoutNode(w.sticky, u))
    case RemovalBegun(u) =>
      w.(calls := w.calls[id := RemovalMustForget(u)], statuses := w.statuses - {u})
    case RemovalMustForget(u) =>
      w.(calls := w.calls[id := RemovalDone], sticky := WithoutNode(w.sticky, u))
    case ProbeListed(u, o) =>
      w.(calls := w.calls[id := if u in w.statuses then ProbeSent(u, o) else ProbeDone])
    case ProbeSent(u, o) =>
      w.(calls := w.calls[id := ProbeDone], statuses := Reported(c.health, w.statuses, u, o))
    case _ => w
  }

  /** What may happen next: a new call, a section of a call, a refresh adding a node, or another call that moves the
      shared counters. */
  datatype Event =
    | Begin(id: nat, call: Call)
    | Continue(id: nat)
    | Join(node: Url)
    | Counted(attempts: nat, turn: nat)

  /** A probe begins when its node is listed as Down. */
  predicate CanBegin(c: Config, w: World, call: Call) {
    match call
    case LookupBegun(_) => true
    case ReportBegun(_, _) => true
    case RemovalBegun(_) => true
    case ProbeListed(u, _) => u in DownSet(c.health, w.statuses)
    case _ => false
  }

  ghost predicate CanHappen(c: Config, w: World, e: Event) {
    match e
    case Begin(id, call) => id !in w.calls && CanBegin(c, w, call)
    case Continue(id) => id in w.calls
    case _ => true
  }

  ghost function Happen(c: Config, w: World, e: Event): World
    requires CanHappen(c, w, e)
  {
    match e
    case Begin(id, call) => w.(calls := w.calls[id := call])
    case Continue(id) => Section(c, w, id)
    case Join(u) => w.(statuses := Added(c.health, w.statuses, u))
    case Counted(attempts, turn) => w.(attempts := attempts, turn := turn)
  }

  /** A run: its worlds and the events between them, starting with no call in progress. */
  ghost predicate IsRun(c: Config, worlds: seq<World>, events: seq<Event>) {
    && |worlds| == |events| + 1 && worlds[0].calls == map[]
    && forall i {:trigger events[i]} | 0 <= i < |events| ::
         CanHappen(c, worlds[i], events[i]) && worlds[i + 1] == Happen(c, worlds[i], events[i])
  }

  // ----- No stale answer -----

  /** The call has begun and has not returned. */
  predicate InProgress(w: World, id: nat) {
    id in w.calls && !w.calls[id].LookupDone?
  }

  /** At some moment of the run so far, while call `id` was in progress, the node was quarantined. */
  ghost predicate SeenQuarantined(c: Config, worlds: seq<World>, id: nat, u: Url) {
    exists i :: 0 <= i < |worlds| && InProgress(worlds[i], id) && u in QuarantinedNow(c, worlds[i])
  }

  ghost predicate Justified(c: Config, worlds: seq<World>, id: nat, call: Call) {
    match call
    case LookupHasBoth(_, _, quarantined) => forall u | u in quarantined :: SeenQuarantined(c, worlds, id, u)
    case LookupChose(_, u) => SeenQuarantined(c, worlds, id, u)
    case LookupDone(u) => u.Empty() || SeenQuarantined(c, worlds, id, u)
    case _ => true
  }

  ghost predicate AllJustified(c: Config, worlds: seq<World>)
    requires worlds != []
  {
    var w := worlds[|worlds| - 1];
    forall id | id in w.calls :: Justified(c, worlds, id, w.calls[id])
  }

  lemma SeenStaysSeen(c: Config, worlds: seq<World>, w: World, id: nat, u: Url)
    requires SeenQuarantined(c, worlds, id, u)
    ensures SeenQuarantined(c, worlds + [w], id, u)
  {
    var i :| 0 <= i < |worlds| && InProgress(worlds[i], id) && u in QuarantinedNow(c, worlds[i]);
    assert (worlds + [w])[i] == worlds[i];
  }

  lemma JustifiedStays(c: Config, worlds: seq<World>, w: World, id: nat, call: Call)
    requires Justified(c, worlds, id, call)
    ensures Justified(c, worlds + [w], id, call)
  {
    forall u | SeenQuarantined(c, worlds, id, u) ensures SeenQuarantined(c, worlds + [w], id, u) {
      SeenStaysSeen(c, worlds, w, id, u);
    }
  }

  /** Whatever is quarantined now has been seen by every call in progress. */
  lemma SeeNow(c: Config, worlds: seq<World>, id: nat)
    requires worlds != [] && InProgress(worlds[|worlds| - 1], id)
    ensures forall u | u in QuarantinedNow(c, worlds[|worlds| - 1]) :: SeenQuarantined(c, worlds, id, u)
  {
    forall u | u in QuarantinedNow(c, worlds[|worlds| - 1]) ensures SeenQuarantined(c, worlds, id, u) {
      var i := |worlds| - 1;
      assert InProgress(worlds[i], id) && u in QuarantinedNow(c, worlds[i]);
    }
  }

  lemma SectionIsJustified(c: Config, worlds: seq<World>, id: nat)
    requires worlds != [] && id in worlds[|worlds| - 1].calls && AllJustified(c, worlds)
    ensures var w := worlds[|worlds| - 1]; Justified(c, worlds, id, Section(c, w, id).calls[id])
  {
    var w := worlds[|worlds| - 1];
    assert Justified(c, worlds, id, w.calls[id]);
    if InProgress(w, id) { SeeNow(c, worlds, id); }
    match w.calls[id] {
      case LookupTries(h, active) =>
        var nodes := InOrder(QuarantinedNow(c, w));
        if nodes != [] { assert nodes[w.turn % |nodes|] in Members(nodes); }
      case _ =>
    }
  }

  lemma SectionKeepsOthers(c: Config, w: World, id: nat, other: nat)
    requires id in w.calls && other != id
    ensures other in Section(c, w, id).calls <==> other in w.calls
    ensures other in w.calls ==> Section(c, w, id).calls[other] == w.calls[other]
  {
  }

  lemma CallsAfter(c: Config, w: World, e: Event, id: nat)
    requires CanHappen(c, w, e) && id in Happen(c, w, e).calls
    ensures var call := Happen(c, w, e).calls[id];
            || (id in w.calls && call == w.calls[id])
            || (e == Continue(id) && call == Section(c, w, id).calls[id])
            || (e.Begin? && e.id == id && call == e.call && id !in w.calls)
  {
    if e.Continue? && e.id != id {
      SectionKeepsOthers(c, w, e.id, id);
    }
  }

  lemma EventKeepsJustified(c: Config, worlds: seq<World>, e: Event)
    requires worlds != [] && AllJustified(c, worlds) && CanHappen(c, worlds[|worlds| - 1], e)
    ensures AllJustified(c, worlds + [Happen(c, worlds[|worlds| - 1], e)])
  {
    var w := worlds[|worlds| - 1];
    var t := Happen(c, w, e);
    if e.Continue? { SectionIsJustified(c, worlds, e.id); }
    forall id | id in t.calls ensures Justified(c, worlds + [t], id, t.calls[id]) {
      CallsAfter(c, w, e, id);
      JustifiedStays(c, worlds, t, id, t.calls[id]);
    }
  }

  lemma {:induction false} RunIsJustified(c: Config, worlds: seq<World>, events: seq<Event>)
    requires IsRun(c, worlds, events)
    ensures AllJustified(c, worlds)
    decreases |events|
  {
    var n := |events|;
    if n > 0 {
      var front, last := worlds[..n], events[n - 1];
      RunIsJustified(c, front, events[..n - 1]);
      EventKeepsJustified(c, front, last);
      assert worlds == front + [worlds[n]];
    }
  }

  /** However calls interleave, a lookup never serves a stale cache entry: a node it returns was quarantined
      at some moment after that call began and before it returned. */
  lemma LookupsNeverServeStaleNodes(c: Config, worlds: seq<World>, events: seq<Event>, id: nat)
    requires IsRun(c, worlds, events)
    requires id in worlds[|events|].calls && worlds[|events|].calls[id].LookupDone?
    requires !worlds[|events|].calls[id].node.Empty()
    ensures exists i :: 0 <= i < |worlds| && InProgress(worlds[i], id)
                        && worlds[|events|].calls[id].node in QuarantinedNow(c, worlds[i])
  {
    RunIsJustified(c, worlds, events);
    assert Justified(c, worlds, id, worlds[|events|].calls[id]);
  }

  // ----- The cache itself can be stale -----

  /** Every cached node is quarantined now. */
  ghost predicate CacheAgrees(c: Config, w: World) {
    forall h | h in w.sticky :: w.sticky[h] in QuarantinedNow(c, w)
  }

  predicate IsCached(w: World, u: Url) {
    exists h | h in w.sticky :: w.sticky[h] == u
  }

  /** The event is about to take this quarantined node out of quarantine. */
  ghost predicate Ejects(c: Config, w: World, e: Event, u: Url)
    requires CanHappen(c, w, e) && u in QuarantinedNow(c, w)
  {
    match e
    case Continue(id) =>
      || ((w.calls[id].ReportBegun? || w.calls[id].ProbeSent?) && w.calls[id].node == u
          && LeavesQuarantine(c.health, w.statuses[u], w.calls[id].observation))
      || (w.calls[id].RemovalBegun? && w.calls[id].node == u)
    case _ => false
  }

  /** The event is about to store a node that has left quarantine since it was chosen. */
  ghost predicate StoresLate(c: Config, w: World, e: Event)
    requires CanHappen(c, w, e)
  {
    e.Continue? && w.calls[e.id].LookupChose? && w.calls[e.id].node !in QuarantinedNow(c, w)
  }

  lemma EjectsExactly(c: Config, w: World, e: Event, u: Url)
    requires CanHappen(c, w, e) && u in QuarantinedNow(c, w)
    ensures u in QuarantinedNow(c, Happen(c, w, e)) <==> !Ejects(c, w, e, u)
  {
  }

  /** What an event does to the cache: it stores one entry, drops one hash, or drops all entries of one node. */
  lemma CacheAfter(c: Config, w: World, e: Event, h: int)
    requires CanHappen(c, w, e)
    ensures var t := Happen(c, w, e);
            && (h in t.sticky ==> (h in w.sticky && t.sticky[h] == w.sticky[h])
                                  || (e.Continue? && w.calls[e.id] == LookupChose(h, t.sticky[h])))
            && (e.Continue? && w.calls[e.id].LookupChose? ==>
                t.sticky == w.sticky[w.calls[e.id].hash := w.calls[e.id].node] && t.statuses == w.statuses)
            && (h in w.sticky && w.sticky[h] in QuarantinedNow(c, w) && Ejects(c, w, e, w.sticky[h]) ==>
                h in t.sticky && t.sticky[h] == w.sticky[h])
  {
  }

  /** With lock sections as steps an event breaks the agreement of cache and health exactly if it stores a node
      that has left quarantine, or takes a cached node out of quarantine. */
  lemma AgreementIsKeptExactly(c: Config, w: World, e: Event)
    requires CacheAgrees(c, w) && CanHappen(c, w, e)
    ensures CacheAgrees(c, Happen(c, w, e)) <==>
            !StoresLate(c, w, e) && forall h | h in w.sticky :: !Ejects(c, w, e, w.sticky[h])
  {
    var t := Happen(c, w, e);
    forall h | h in w.sticky ensures w.sticky[h] in QuarantinedNow(c, t) <==> !Ejects(c, w, e, w.sticky[h]) {
      EjectsExactly(c, w, e, w.sticky[h]);
    }
    if e.Continue? && w.calls[e.id].LookupChose? {
      CacheAfter(c, w, e, w.calls[e.id].hash);
      assert w.calls[e.id].hash in t.sticky;
    } else {
      forall h
        ensures h in t.sticky ==> h in w.sticky && t.sticky[h] == w.sticky[h]
        ensures h in w.sticky && Ejects(c, w, e, w.sticky[h]) ==> h in t.sticky && t.sticky[h] == w.sticky[h]
      {
        CacheAfter(c, w, e, h);
      }
    }
  }

  // ----- Cleaning up -----

  /** The call still has to look at the entries of this node. */
  predicate WillClean(call: Call, u: Url) {
    call == ReportRecorded(u) || call == ReportMustForget(u) || call == RemovalMustForget(u)
  }

  ghost predicate Pending(w: World, u: Url) {
    exists id :: id in w.calls && WillClean(w.calls[id], u)
  }

  /** Every cached node is quarantined, or a call is on its way to remove it. */
  ghost predicate Covered(c: Config, w: World) {
    forall h | h in w.sticky :: w.sticky[h] in QuarantinedNow(c, w) || Pending(w, w.sticky[h])
  }

  /** The event is the result of a probe that takes this cached node out of quarantine. */
  ghost predicate ProbeEjects(c: Config, w: World, e: Event, u: Url)
    requires CanHappen(c, w, e)
  {
    && e.Continue? && w.calls[e.id].ProbeSent? && w.calls[e.id].node == u
    && IsCached(w, u) && u in QuarantinedNow(c, w) && Ejects(c, w, e, u)
  }

  /** The event leaves an entry behind that nobody will remove: it stores a node late, or it is the result of a probe
      that takes a cached node out of quarantine, and no call is on its way to remove the entries of that node. */
  ghost predicate LeavesBehind(c: Config, w: World, e: Event)
    requires CanHappen(c, w, e)
  {
    && e.Continue? && (StoresLate(c, w, e) || (w.calls[e.id].ProbeSent? && ProbeEjects(c, w, e, w.calls[e.id].node)))
    && !Pending(w, w.calls[e.id].node)
  }

  /** A call that will clean up goes on to do so, unless the node turns out to be quarantined. */
  lemma SectionCleans(c: Config, w: World, id: nat, u: Url)
    requires !c.health.disabled && id in w.calls && WillClean(w.calls[id], u)
    ensures var t := Section(c, w, id);
            WillClean(t.calls[id], u) || !IsCached(t, u) || u in QuarantinedNow(c, t)
  {
  }

  lemma PendingStays(c: Config, w: World, e: Event, u: Url)
    requires !c.health.disabled && CanHappen(c, w, e) && Pending(w, u)
    ensures var t := Happen(c, w, e); Pending(t, u) || !IsCached(t, u) || u in QuarantinedNow(c, t)
  {
    var t := Happen(c, w, e);
    var id :| id in w.calls && WillClean(w.calls[id], u);
    if e == Continue(id) {
      SectionCleans(c, w, id, u);
      assert id in t.calls;
    } else {
      if e.Continue? { SectionKeepsOthers(c, w, e.id, id); }
      assert id in t.calls && t.calls[id] == w.calls[id];
    }
  }

  lemma SectionStarts(c: Config, w: World, id: nat, u: Url)
    requires id in w.calls && WillClean(Section(c, w, id).calls[id], u)
    ensures WillClean(w.calls[id], u) || Starts(c, w, Continue(id), u)
  {
  }

  lemma PendingStarts(c: Config, w: World, e: Event, u: Url)
    requires CanHappen(c, w, e)
    ensures Pending(Happen(c, w, e), u) ==> Pending(w, u) || Starts(c, w, e, u)
    ensures Starts(c, w, e, u) ==> Pending(Happen(c, w, e), u)
  {
    var t := Happen(c, w, e);
    if Starts(c, w, e, u) {
      assert WillClean(t.calls[e.id], u);
    }
    if Pending(t, u) {
      var id :| id in t.calls && WillClean(t.calls[id], u);
      CallsAfter(c, w, e, id);
      if e == Continue(id) { SectionStarts(c, w, id, u); }
    }
  }

  /** The event is the first section of a report or a removal for this node. */
  ghost predicate Starts(c: Config, w: World, e: Event, u: Url)
    requires CanHappen(c, w, e)
  {
    e.Continue? && (w.calls[e.id].ReportBegun? || w.calls[e.id].RemovalBegun?) && w.calls[e.id].node == u
  }

  lemma EntryStaysCovered(c: Config, w: World, e: Event, h: int)
    requires !c.health.disabled && Covered(c, w) && CanHappen(c, w, e) && !LeavesBehind(c, w, e)
    requires h in Happen(c, w, e).sticky
    ensures var t := Happen(c, w, e); t.sticky[h] in QuarantinedNow(c, t) || Pending(t, t.sticky[h])
  {
    var t := Happen(c, w, e);
    var u := t.sticky[h];
    assert IsCached(t, u);
    CacheAfter(c, w, e, h);
    PendingStarts(c, w, e, u);
    if Pending(w, u) {
      PendingStays(c, w, e, u);
    } else if u in QuarantinedNow(c, w) {
      EjectsExactly(c, w, e, u);
      assert h in w.sticky && w.sticky[h] == u ==> IsCached(w, u);
    }
  }

  lemma LeftBehindIsUncovered(c: Config, w: World, e: Event)
    requires CanHappen(c, w, e) && LeavesBehind(c, w, e)
    ensures !Covered(c, Happen(c, w, e))
  {
    var t := Happen(c, w, e);
    var q := w.calls[e.id].node;
    PendingStarts(c, w, e, q);
    if StoresLate(c, w, e) {
      var h := w.calls[e.id].hash;
      CacheAfter(c, w, e, h);
      assert h in t.sticky && t.sticky[h] == q;
    } else {
      var h :| h in w.sticky && w.sticky[h] == q;
      EjectsExactly(c, w, e, q);
      assert h in t.sticky && t.sticky[h] == q;
    }
  }

  /** Every event keeps every entry either right or about to be removed, except exactly the events that leave an
      entry behind. */
  lemma CoverageIsKeptExactly(c: Config, w: World, e: Event)
    requires !c.health.disabled && Covered(c, w) && CanHappen(c, w, e)
    ensures Covered(c, Happen(c, w, e)) <==> !LeavesBehind(c, w, e)
  {
    if LeavesBehind(c, w, e) {
      LeftBehindIsUncovered(c, w, e);
    } else {
      forall h | h in Happen(c, w, e).sticky
        ensures var t := Happen(c, w, e); t.sticky[h] in QuarantinedNow(c, t) || Pending(t, t.sticky[h])
      {
        EntryStaysCovered(c, w, e, h);
      }
    }
  }

  /** With health tracking off nothing is ever chosen, so nothing is cached. */
  ghost predicate CachesNothing(w: World) {
    w.sticky == map[] && forall id | id in w.calls :: !w.calls[id].LookupChose?
  }

  lemma DisabledCachesNothing(c: Config, w: World, e: Event)
    requires c.health.disabled && CachesNothing(w) && CanHappen(c, w, e)
    ensures CachesNothing(Happen(c, w, e))
  {
    var t := Happen(c, w, e);
    assert WithoutNode(map[], NO_URL) == map[];
    forall id | id in t.calls ensures !t.calls[id].LookupChose? {
      CallsAfter(c, w, e, id);
      assert InOrder(QuarantinedNow(c, w)) == [];
    }
  }

  lemma {:induction false} RunStaysCovered(c: Config, worlds: seq<World>, events: seq<Event>)
    requires IsRun(c, worlds, events) && worlds[0].sticky == map[]
    requires forall i {:trigger events[i]} | 0 <= i < |events| :: !LeavesBehind(c, worlds[i], events[i])
    ensures Covered(c, worlds[|events|])
    ensures c.health.disabled ==> CachesNothing(worlds[|events|])
    decreases |events|
  {
    var n := |events|;
    if n > 0 {
      var front, last := worlds[..n], events[n - 1];
      RunStaysCovered(c, front, events[..n - 1]);
      if c.health.disabled {
        DisabledCachesNothing(c, front[n - 1], last);
      } else {
        CoverageIsKeptExactly(c, front[n - 1], last);
      }
    }
  }

  /** In a run from an empty cache in which no event leaves an entry behind, the cache agrees with the health states
      whenever no call has cleaning up to do. */
  lemma CacheAgreesWhenQuiet(c: Config, worlds: seq<World>, events: seq<Event>)
    requires IsRun(c, worlds, events) && worlds[0].sticky == map[]
    requires forall i {:trigger events[i]} | 0 <= i < |events| :: !LeavesBehind(c, worlds[i], events[i])
    requires forall u :: !Pending(worlds[|events|], u)
    ensures CacheAgrees(c, worlds[|events|])
  {
    RunStaysCovered(c, worlds, events);
  }

  // ----- Runs that leave a stale entry -----

  /** The events lead from one world to another. */
  ghost predicate Leads(c: Config, w: World, events: seq<Event>, t: World)
    decreases |events|
  {
    if events == [] then w == t
    else CanHappen(c, w, events[0]) && Leads(c, Happen(c, w, events[0]), events[1..], t)
  }

  lemma LeadsOne(c: Config, w: World, e: Event)
    requires CanHappen(c, w, e)
    ensures Leads(c, w, [e], Happen(c, w, e))
  {
    assert [e][1..] == [];
  }

  lemma {:induction false} LeadsOn(c: Config, w: World, a: seq<Event>, m: World, b: seq<Event>, t: World)
    requires Leads(c, w, a, m) && Leads(c, m, b, t)
    ensures Leads(c, w, a + b, t)
    decreases |a|
  {
    if a == [] {
      assert a + b == b;
    } else {
      assert (a + b)[1..] == a[1..] + b;
      LeadsOn(c, Happen(c, w, a[0]), a[1..], m, b, t);
    }
  }

  /** One more event. */
  lemma LeadsNext(c: Config, w: World, events: seq<Event>, m: World, e: Event, t: World)
    requires Leads(c, w, events, m) && CanHappen(c, m, e) && t == Happen(c, m, e)
    ensures Leads(c, w, events + [e], t)
  {
    LeadsOne(c, m, e);
    LeadsOn(c, w, events, m, [e], t);
  }

  lemma {:induction false} LeadsIsRun(c: Config, w: World, events: seq<Event>, t: World) returns (worlds: seq<World>)
    requires Leads(c, w, events, t)
    ensures |worlds| == |events| + 1 && worlds[0] == w && worlds[|events|] == t
    ensures forall i {:trigger events[i]} | 0 <= i < |events| ::
              CanHappen(c, worlds[i], events[i]) && worlds[i + 1] == Happen(c, worlds[i], events[i])
    decreases |events|
  {
    worlds := [w];
    if events != [] {
      var more := LeadsIsRun(c, Happen(c, w, events[0]), events[1..], t);
      worlds := [w] + more;
      forall i {:trigger events[i]} | 0 <= i < |events|
        ensures CanHappen(c, worlds[i], events[i]) && worlds[i + 1] == Happen(c, worlds[i], events[i])
      {
        if i > 0 { assert events[i] == events[1..][i - 1] && worlds[i] == more[i - 1]; }
      }
    }
  }

  function Opening(c: Config, q: Url): World {
    World(map[q := Fresh(c.health)], map[], 0, 0, map[])
  }

  function InQuarantine(q: Url): Statuses {
    map[q := Status(Quarantined, 0, 1)]
  }

  function TakenDown(c: Config, q: Url): Statuses {
    map[q := Status(Down, c.health.errorThreshold, 0)]
  }

  /** One more section of a call. */
  lemma LeadsThrough(c: Config, w: World, events: seq<Event>, m: World, id: nat, t: World)
    requires Leads(c, w, events, m) && id in m.calls && Section(c, m, id) == t
    ensures Leads(c, w, events + [Continue(id)], t)
  {
    LeadsNext(c, w, events, m, Continue(id), t);
  }

  /** The world with one call as far as this. */
  function With(w: World, id: nat, call: Call): World {
    w.(calls := w.calls[id := call])
  }

  lemma FailureIsRecorded(c: Config, w: World, q: Url, id: nat)
    requires !c.health.disabled && w.statuses.Keys == {q}
    ensures Section(c, With(w, id, ReportBegun(q, ConnectionFailure)), id) ==
            With(w.(statuses := TakenDown(c, q)), id, ReportRecorded(q))
  {
    var m := With(w, id, ReportBegun(q, ConnectionFailure));
    assert m.calls[id := ReportRecorded(q)] == w.calls[id := ReportRecorded(q)];
    assert Reported(c.health, w.statuses, q, ConnectionFailure) == TakenDown(c, q);
  }

  lemma FailureIsSeen(c: Config, w: World, q: Url, id: nat)
    requires w.statuses == TakenDown(c, q)
    ensures Section(c, With(w, id, ReportRecorded(q)), id) == With(w, id, ReportMustForget(q))
  {
    var m := With(w, id, ReportRecorded(q));
    assert m.calls[id := ReportMustForget(q)] == w.calls[id := ReportMustForget(q)];
  }

  lemma FailureIsForgotten(c: Config, w: World, q: Url, id: nat)
    ensures Section(c, With(w, id, ReportMustForget(q)), id) ==
            With(w.(sticky := WithoutNode(w.sticky, q)), id, ReportDone)
  {
    var m := With(w, id, ReportMustForget(q));
    assert m.calls[id := ReportDone] == w.calls[id := ReportDone];
  }

  /** A report of a failure about the only node, from beginning to end. */
  lemma FailureReported(c: Config, w: World, q: Url, id: nat) returns (events: seq<Event>)
    requires !c.health.disabled && id !in w.calls && w.statuses.Keys == {q}
    ensures Leads(c, w, events,
                  With(w.(statuses := TakenDown(c, q), sticky := WithoutNode(w.sticky, q)), id, ReportDone))
  {
    var down := w.(statuses := TakenDown(c, q));
    var begin := Begin(id, ReportBegun(q, ConnectionFailure));
    LeadsOne(c, w, begin);
    FailureIsRecorded(c, w, q, id);
    LeadsThrough(c, w, [begin], With(w, id, ReportBegun(q, ConnectionFailure)), id, With(down, id, ReportRecorded(q)));
    events := [begin] + [Continue(id)];
    FailureIsSeen(c, down, q, id);
    LeadsThrough(c, w, events, With(down, id, ReportRecorded(q)), id, With(down, id, ReportMustForget(q)));
    events := events + [Continue(id)];
    FailureIsForgotten(c, down, q, id);
    LeadsThrough(c, w, events, With(down, id, ReportMustForget(q)), id,
                 With(down.(sticky := WithoutNode(w.sticky, q)), id, ReportDone));
    events := events + [Continue(id)];
  }

  lemma RecoveryIsRecorded(c: Config, w: World, q: Url, id: nat)
    requires !c.health.disabled && w.statuses == TakenDown(c, q)
    ensures Section(c, With(w, id, ReportBegun(q, Success)), id) ==
            With(w.(statuses := InQuarantine(q)), id, ReportRecorded(q))
  {
    var m := With(w, id, ReportBegun(q, Success));
    assert m.calls[id := ReportRecorded(q)] == w.calls[id := ReportRecorded(q)];
    assert Reported(c.health, w.statuses, q, Success) == InQuarantine(q);
  }

  lemma RecoveryIsSeen(c: Config, w: World, q: Url, id: nat)
    requires w.statuses == InQuarantine(q)
    ensures Section(c, With(w, id, ReportRecorded(q)), id) == With(w, id, ReportDone)
  {
    var m := With(w, id, ReportRecorded(q));
    assert m.calls[id := ReportDone] == w.calls[id := ReportDone];
  }

  /** A report of a success that moves the only node from Down to quarantine. */
  lemma RecoveryReported(c: Config, w: World, q: Url, id: nat) returns (events: seq<Event>)
    requires !c.health.disabled && id !in w.calls && w.statuses == TakenDown(c, q)
    ensures Leads(c, w, events, With(w.(statuses := InQuarantine(q)), id, ReportDone))
  {
    var up, begin := w.(statuses := InQuarantine(q)), Begin(id, ReportBegun(q, Success));
    LeadsOne(c, w, begin);
    RecoveryIsRecorded(c, w, q, id);
    LeadsThrough(c, w, [begin], With(w, id, ReportBegun(q, Success)), id, With(up, id, ReportRecorded(q)));
    RecoveryIsSeen(c, up, q, id);
    LeadsThrough(c, w, [begin] + [Continue(id)], With(up, id, ReportRecorded(q)), id, With(up, id, ReportDone));
    events := [begin] + [Continue(id)] + [Continue(id)];
  }

  lemma SnapshotsAreTaken(c: Config, w: World, q: Url, hash: int, id: nat)
    requires !c.health.disabled && w.statuses == InQuarantine(q)
    ensures Section(c, With(w, id, LookupBegun(hash)), id) == With(w, id, LookupHasActive(hash, {}))
    ensures Section(c, With(w, id, LookupHasActive(hash, {})), id) == With(w, id, LookupHasBoth(hash, {}, {q}))
  {
    assert QuarantinedNow(c, w) == {q} && ActiveSet(c.health, w.statuses) == {};
    var m, n := With(w, id, LookupBegun(hash)), With(w, id, LookupHasActive(hash, {}));
    assert m.calls[id := LookupHasActive(hash, {})] == n.calls;
    assert n.calls[id := LookupHasBoth(hash, {}, {q})] == w.calls[id := LookupHasBoth(hash, {}, {q})];
  }

  lemma NothingIsCached(c: Config, w: World, q: Url, hash: int, id: nat)
    requires w.sticky == map[]
    ensures Section(c, With(w, id, LookupHasBoth(hash, {}, {q})), id) == With(w, id, LookupMissed(hash, {}))
  {
    var m := With(w, id, LookupHasBoth(hash, {}, {q}));
    assert m.calls[id := LookupMissed(hash, {})] == w.calls[id := LookupMissed(hash, {})];
    assert w.sticky - {hash} == w.sticky;
  }

  lemma NoNodeIsActive(c: Config, w: World, q: Url, hash: int, id: nat)
    requires !c.health.disabled && w.statuses == InQuarantine(q)
    ensures Section(c, With(w, id, LookupMissed(hash, {})), id) == With(w, id, LookupTries(hash, {}))
  {
    var m := With(w, id, LookupMissed(hash, {}));
    assert m.calls[id := LookupTries(hash, {})] == w.calls[id := LookupTries(hash, {})];
    assert q in QuarantinedNow(c, w);
  }

  lemma SnapshotsTaken(c: Config, w: World, q: Url, hash: int, id: nat) returns (events: seq<Event>)
    requires !c.health.disabled && id !in w.calls && w.statuses == InQuarantine(q)
    ensures Leads(c, w, events, With(w, id, LookupHasBoth(hash, {}, {q})))
  {
    var begin := Begin(id, LookupBegun(hash));
    LeadsOne(c, w, begin);
    SnapshotsAreTaken(c, w, q, hash, id);
    LeadsThrough(c, w, [begin], With(w, id, LookupBegun(hash)), id, With(w, id, LookupHasActive(hash, {})));
    LeadsThrough(c, w, [begin] + [Continue(id)], With(w, id, LookupHasActive(hash, {})), id,
                 With(w, id, LookupHasBoth(hash, {}, {q})));
    events := [begin] + [Continue(id)] + [Continue(id)];
  }

  /** A lookup that finds nothing cached and chooses the only node, up to where it would store its choice. */
  lemma OnlyNodeChosen(c: Config, w: World, q: Url, hash: int, id: nat) returns (events: seq<Event>)
    requires !c.health.disabled && id !in w.calls && w.statuses == InQuarantine(q) && w.sticky == map[]
    ensures Leads(c, w, events, With(w.(turn := Bump(w.turn)), id, LookupChose(hash, q)))
  {
    events := SnapshotsTaken(c, w, q, hash, id);
    NothingIsCached(c, w, q, hash, id);
    LeadsThrough(c, w, events, With(w, id, LookupHasBoth(hash, {}, {q})), id, With(w, id, LookupMissed(hash, {})));
    events := events + [Continue(id)];
    NoNodeIsActive(c, w, q, hash, id);
    LeadsThrough(c, w, events, With(w, id, LookupMissed(hash, {})), id, With(w, id, LookupTries(hash, {})));
    events := events + [Continue(id)];
    OnlyNodeTaken(c, w, q, hash, id);
    LeadsThrough(c, w, events, With(w, id, LookupTries(hash, {})), id,
                 With(w.(turn := Bump(w.turn)), id, LookupChose(hash, q)));
    events := events + [Continue(id)];
  }

  lemma OnlyNodeHasTheTurn(q: Url, turn: nat)
    ensures var nodes := InOrder({q}); nodes != [] && nodes[turn % |nodes|] == q
  {
    var nodes := InOrder({q});
    assert nodes[turn % |nodes|] in Members(nodes);
  }

  lemma OnlyNodeTaken(c: Config, w: World, q: Url, hash: int, id: nat)
    requires !c.health.disabled && w.statuses == InQuarantine(q)
    ensures Section(c, With(w, id, LookupTries(hash, {})), id) ==
            With(w.(turn := Bump(w.turn)), id, LookupChose(hash, q))
  {
    var m := With(w, id, LookupTries(hash, {}));
    assert QuarantinedNow(c, w) == {q};
    OnlyNodeHasTheTurn(q, w.turn);
    assert InOrder({}) == [];
    RoutingTheorems.OnlyCandidateIsFirst(c, q, hash);
    assert m.calls[id := LookupChose(hash, q)] == w.calls[id := LookupChose(hash, q)];
  }

  lemma ChoiceIsStored(c: Config, w: World, q: Url, hash: int, id: nat)
    requires w.sticky == map[]
    ensures Section(c, With(w, id, LookupChose(hash, q)), id) == With(w.(sticky := map[hash := q]), id, LookupDone(q))
  {
    var m := With(w, id, LookupChose(hash, q));
    assert m.calls[id := LookupDone(q)] == w.calls[id := LookupDone(q)];
    assert w.sticky[hash := q] == map[hash := q];
  }

  /** The cache names a Down node, and no call is left that would remove the entry. */
  ghost predicate StaleForGood(w: World, q: Url, hash: int) {
    && hash in w.sticky && w.sticky[hash] == q && q in w.statuses && w.statuses[q].state == Down
    && forall id | id in w.calls :: w.calls[id].LookupDone? || w.calls[id].ReportDone? || w.calls[id].ProbeDone?
  }

  lemma NothingForgotten(u: Url)
    ensures WithoutNode(map[], u) == map[]
  {
  }

  /** The only node fails and recovers into quarantine. */
  lemma FailedAndRecovered(c: Config, q: Url) returns (events: seq<Event>)
    requires Usable(c.health) && !c.health.disabled
    ensures Leads(c, Opening(c, q), events,
                  World(InQuarantine(q), map[], 0, 0, map[2 := ReportDone, 3 := ReportDone]))
  {
    NothingForgotten(q);
    var w0 := Opening(c, q);
    var failing := FailureReported(c, w0, q, 2);
    var w1 := World(TakenDown(c, q), map[], 0, 0, map[2 := ReportDone]);
    var recovering := RecoveryReported(c, w1, q, 3);
    LeadsOn(c, w0, failing, w1, recovering, World(InQuarantine(q), map[], 0, 0, map[2 := ReportDone, 3 := ReportDone]));
    events := failing + recovering;
  }

  /** A lookup chooses the node; before it stores its choice, a report takes the node down and cleans the cache. */
  lemma StoredTooLate(c: Config, w: World, q: Url, hash: int) returns (events: seq<Event>)
    requires !c.health.disabled && w.statuses == InQuarantine(q) && w.sticky == map[]
    requires 0 !in w.calls && 1 !in w.calls
    ensures Leads(c, w, events, World(TakenDown(c, q), map[hash := q], w.attempts, Bump(w.turn),
                                      w.calls[1 := ReportDone][0 := LookupDone(q)]))
  {
    NothingForgotten(q);
    var choosing := OnlyNodeChosen(c, w, q, hash, 0);
    var w1 := With(w.(turn := Bump(w.turn)), 0, LookupChose(hash, q));
    var failing := FailureReported(c, w1, q, 1);
    var w2 := With(w.(statuses := TakenDown(c, q), turn := Bump(w.turn)), 1, ReportDone);
    assert w1.calls[1 := ReportDone] == w2.calls[0 := LookupChose(hash, q)];
    LeadsOn(c, w, choosing, w1, failing, With(w2, 0, LookupChose(hash, q)));
    ChoiceIsStored(c, w2, q, hash, 0);
    LeadsThrough(c, w, choosing + failing, With(w2, 0, LookupChose(hash, q)), 0,
                 With(w2.(sticky := map[hash := q]), 0, LookupDone(q)));
    events := choosing + failing + [Continue(0)];
  }

  /** Storing too late does happen, after the only node has failed and recovered into quarantine. */
  lemma CacheCanGoStale(c: Config, q: Url, hash: int) returns (worlds: seq<World>, events: seq<Event>)
    requires Usable(c.health) && !c.health.disabled
    ensures IsRun(c, worlds, events) && worlds[0] == Opening(c, q) && StaleForGood(worlds[|events|], q, hash)
  {
    var calls := map[2 := ReportDone, 3 := ReportDone];
    var recovering := FailedAndRecovered(c, q);
    var w := World(InQuarantine(q), map[], 0, 0, calls);
    var storing := StoredTooLate(c, w, q, hash);
    var t := World(TakenDown(c, q), map[hash := q], 0, 1, calls[1 := ReportDone][0 := LookupDone(q)]);
    LeadsOn(c, Opening(c, q), recovering, w, storing, t);
    events := recovering + storing;
    worlds := LeadsIsRun(c, Opening(c, q), events, t);
  }

  lemma ProbeIsSent(c: Config, w: World, q: Url, o: Observation, id: nat)
    requires q in w.statuses
    ensures Section(c, With(w, id, ProbeListed(q, o)), id) == With(w, id, ProbeSent(q, o))
  {
    assert With(w, id, ProbeListed(q, o)).calls[id := ProbeSent(q, o)] == w.calls[id := ProbeSent(q, o)];
  }

  /** The only node fails, and a probe is sent to it. */
  lemma ProbedWhileDown(c: Config, q: Url) returns (events: seq<Event>)
    requires Usable(c.health) && !c.health.disabled
    ensures Leads(c, Opening(c, q), events,
                  World(TakenDown(c, q), map[], 0, 0, map[2 := ReportDone, 4 := ProbeSent(q, ConnectionFailure)]))
  {
    NothingForgotten(q);
    var w0, probe := Opening(c, q), ProbeListed(q, ConnectionFailure);
    var failing := FailureReported(c, w0, q, 2);
    var w1 := World(TakenDown(c, q), map[], 0, 0, map[2 := ReportDone]);
    assert q in DownSet(c.health, w1.statuses);
    LeadsNext(c, w0, failing, w1, Begin(4, probe), With(w1, 4, probe));
    ProbeIsSent(c, w1, q, ConnectionFailure, 4);
    LeadsThrough(c, w0, failing + [Begin(4, probe)], With(w1, 4, probe), 4,
                 With(w1, 4, ProbeSent(q, ConnectionFailure)));
    events := failing + [Begin(4, probe)] + [Continue(4)];
  }

  /** A report moves the only node to quarantine and a lookup remembers it. */
  lemma RememberedMeanwhile(c: Config, w: World, q: Url, hash: int) returns (events: seq<Event>)
    requires !c.health.disabled && w.statuses == TakenDown(c, q) && w.sticky == map[]
    requires 3 !in w.calls && 0 !in w.calls
    ensures Leads(c, w, events, World(InQuarantine(q), map[hash := q], w.attempts, Bump(w.turn),
                                      w.calls[3 := ReportDone][0 := LookupDone(q)]))
  {
    var recovering := RecoveryReported(c, w, q, 3);
    var w1 := With(w.(statuses := InQuarantine(q)), 3, ReportDone);
    var choosing := OnlyNodeChosen(c, w1, q, hash, 0);
    var w2 := w1.(turn := Bump(w.turn));
    LeadsOn(c, w, recovering, w1, choosing, With(w2, 0, LookupChose(hash, q)));
    ChoiceIsStored(c, w2, q, hash, 0);
    LeadsThrough(c, w, recovering + choosing, With(w2, 0, LookupChose(hash, q)), 0,
                 With(w2.(sticky := map[hash := q]), 0, LookupDone(q)));
    events := recovering + choosing + [Continue(0)];
  }

  lemma ProbeFails(c: Config, w: World, q: Url, id: nat)
    requires !c.health.disabled && w.statuses.Keys == {q}
    requires id in w.calls && w.calls[id] == ProbeSent(q, ConnectionFailure)
    ensures Section(c, w, id) == With(w.(statuses := TakenDown(c, q)), id, ProbeDone)
  {
    assert Reported(c.health, w.statuses, q, ConnectionFailure) == TakenDown(c, q);
  }

  /** So does the other way: a probe is sent to the node while it is Down; a report moves the node to quarantine and a
      lookup remembers it before the probe fails. */
  lemma ProbeCanLeaveStaleEntry(c: Config, q: Url, hash: int) returns (worlds: seq<World>, events: seq<Event>)
    requires Usable(c.health) && !c.health.disabled
    ensures IsRun(c, worlds, events) && worlds[0] == Opening(c, q) && StaleForGood(worlds[|events|], q, hash)
  {
    var calls := map[2 := ReportDone, 4 := ProbeSent(q, ConnectionFailure)];
    var sent := ProbedWhileDown(c, q);
    var w := World(TakenDown(c, q), map[], 0, 0, calls);
    var remembering := RememberedMeanwhile(c, w, q, hash);
    var m := World(InQuarantine(q), map[hash := q], 0, 1, calls[3 := ReportDone][0 := LookupDone(q)]);
    LeadsOn(c, Opening(c, q), sent, w, remembering, m);
    ProbeFails(c, m, q, 4);
    var t := With(m.(statuses := TakenDown(c, q)), 4, ProbeDone);
    LeadsThrough(c, Opening(c, q), sent + remembering, m, 4, t);
    events := sent + remembering + [Continue(4)];
    worlds := LeadsIsRun(c, Opening(c, q), events, t);
  }

  // ----- A call alone -----

  /** The part of a world that the whole-operation model has too. */
  function AsRouting(w: World): Routing {
    Routing([], w.statuses, w.sticky, 0, w.attempts, w.turn)
  }

  /** The world with this routing state and one call as far as this. */
  function Reaching(w: World, r: Routing, id: nat, call: Call): World {
    World(r.statuses, r.sticky, r.attempts, r.turn, w.calls[id := call])
  }

  lemma LookupSnapshots(c: Config, w: World, hash: int, id: nat) returns (events: seq<Event>)
    requires id !in w.calls
    ensures Leads(c, w, events, With(w, id, LookupHasBoth(hash, ActiveSet(c.health, w.statuses), QuarantinedNow(c, w))))
    ensures forall e | e in events :: e == Begin(id, LookupBegun(hash)) || e == Continue(id)
  {
    var active, begin := ActiveSet(c.health, w.statuses), Begin(id, LookupBegun(hash));
    var m, n := With(w, id, LookupBegun(hash)), With(w, id, LookupHasActive(hash, active));
    LeadsOne(c, w, begin);
    assert m.calls[id := LookupHasActive(hash, active)] == n.calls;
    LeadsThrough(c, w, [begin], m, id, n);
    var t := With(w, id, LookupHasBoth(hash, active, QuarantinedNow(c, w)));
    assert n.calls[id := LookupHasBoth(hash, active, QuarantinedNow(c, w))] == t.calls;
    LeadsThrough(c, w, [begin] + [Continue(id)], n, id, t);
    events := [begin] + [Continue(id)] + [Continue(id)];
  }

  lemma CacheHits(c: Config, w: World, hash: int, id: nat)
    requires AllWellFormed(w.statuses.Keys) && hash in w.sticky && w.sticky[hash] in QuarantinedNow(c, w)
    ensures var (q, r) := Stick(c, AsRouting(w), hash);
            Section(c, With(w, id, LookupHasBoth(hash, ActiveSet(c.health, w.statuses), QuarantinedNow(c, w))), id) ==
            Reaching(w, r, id, LookupDone(q))
  {
    var m := With(w, id, LookupHasBoth(hash, ActiveSet(c.health, w.statuses), QuarantinedNow(c, w)));
    StickHit(c, AsRouting(w), hash);
    var q := Stick(c, AsRouting(w), hash).0;
    assert m.calls[id := LookupDone(q)] == w.calls[id := LookupDone(q)];
  }

  lemma CacheMisses(c: Config, w: World, hash: int, id: nat)
    requires !(hash in w.sticky && w.sticky[hash] in QuarantinedNow(c, w))
    ensures var active := ActiveSet(c.health, w.statuses);
            Section(c, With(w, id, LookupHasBoth(hash, active, QuarantinedNow(c, w))), id) ==
            With(w.(sticky := w.sticky - {hash}), id, LookupMissed(hash, active))
  {
    var active := ActiveSet(c.health, w.statuses);
    var m := With(w, id, LookupHasBoth(hash, active, QuarantinedNow(c, w)));
    assert m.calls[id := LookupMissed(hash, active)] == w.calls[id := LookupMissed(hash, active)];
  }

  lemma SamplingIsDecided(c: Config, w: World, hash: int, id: nat)
    ensures var active := ActiveSet(c.health, w.statuses);
            var (try, r) := Tries(c, AsRouting(w));
            Section(c, With(w, id, LookupMissed(hash, active)), id) ==
            Reaching(w, r, id, if try then LookupTries(hash, active) else LookupDone(NO_URL))
  {
    var active := ActiveSet(c.health, w.statuses);
    var m := With(w, id, LookupMissed(hash, active));
    assert m.calls[id := LookupTries(hash, active)] == w.calls[id := LookupTries(hash, active)];
    assert m.calls[id := LookupDone(NO_URL)] == w.calls[id := LookupDone(NO_URL)];
  }

  lemma SampleIsTaken(c: Config, w: World, hash: int, id: nat)
    requires QuarantinedNow(c, w) != {}
    ensures var active := ActiveSet(c.health, w.statuses);
            var (q, r) := TakeQuarantined(c, AsRouting(w));
            Section(c, With(w, id, LookupTries(hash, active)), id) ==
            Reaching(w, r, id, if IsFirstForHash(c, q, InOrder(active), hash) then LookupChose(hash, q)
                               else LookupDone(NO_URL))
  {
    var active := ActiveSet(c.health, w.statuses);
    var m, q := With(w, id, LookupTries(hash, active)), TakeQuarantined(c, AsRouting(w)).0;
    assert m.calls[id := LookupChose(hash, q)] == w.calls[id := LookupChose(hash, q)];
    assert m.calls[id := LookupDone(NO_URL)] == w.calls[id := LookupDone(NO_URL)];
  }

  lemma ChoiceIsKept(c: Config, w: World, q: Url, hash: int, id: nat)
    ensures Section(c, With(w, id, LookupChose(hash, q)), id) ==
            With(w.(sticky := w.sticky[hash := q]), id, LookupDone(q))
  {
    var m := With(w, id, LookupChose(hash, q));
    assert m.calls[id := LookupDone(q)] == w.calls[id := LookupDone(q)];
  }

  /** What a lookup that samples comes to: the node taken is stored and returned if it is first for the hash. */
  ghost function Sampled(c: Config, r: Routing, hash: int): (Url, Routing) {
    var (q, t) := TakeQuarantined(c, r);
    if IsFirstForHash(c, q, ActiveNodes(c, r), hash) then (q, t.(sticky := r.sticky[hash := q])) else (NO_URL, t)
  }

  lemma SampleIsFinished(c: Config, w: World, hash: int, id: nat) returns (events: seq<Event>)
    requires QuarantinedNow(c, w) != {}
    ensures var (q, r) := Sampled(c, AsRouting(w), hash);
            Leads(c, With(w, id, LookupTries(hash, ActiveSet(c.health, w.statuses))), events,
                  Reaching(w, r, id, LookupDone(q)))
    ensures forall e | e in events :: e == Continue(id)
  {
    var active := ActiveSet(c.health, w.statuses);
    var m := With(w, id, LookupTries(hash, active));
    var (q, r) := TakeQuarantined(c, AsRouting(w));
    SampleIsTaken(c, w, hash, id);
    LeadsOne(c, m, Continue(id));
    events := [Continue(id)];
    if IsFirstForHash(c, q, InOrder(active), hash) {
      var w1 := w.(turn := r.turn);
      ChoiceIsKept(c, w1, q, hash, id);
      LeadsThrough(c, m, events, With(w1, id, LookupChose(hash, q)), id,
                   With(w1.(sticky := w.sticky[hash := q]), id, LookupDone(q)));
      events := events + [Continue(id)];
    }
  }

  /** The same in the whole-operation model. */
  lemma StickSamples(c: Config, w: World, hash: int)
    requires AllWellFormed(w.statuses.Keys) && !(hash in w.sticky && w.sticky[hash] in QuarantinedNow(c, w))
    ensures var (try, r) := Tries(c, AsRouting(w.(sticky := w.sticky - {hash})));
            Stick(c, AsRouting(w), hash) == if try then Sampled(c, r, hash) else (NO_URL, r)
    ensures var (try, r) := Tries(c, AsRouting(w.(sticky := w.sticky - {hash})));
            try ==> QuarantinedNow(c, w) != {}
  {
    var s := AsRouting(w);
    StickMiss(c, s, hash);
    SampleSpec(c, s);
    SampleTurn(c, s);
    assert (w.sticky - {hash})[hash := Sample(c, s).0] == w.sticky[hash := Sample(c, s).0];
  }

  lemma MissIsSampled(c: Config, w: World, hash: int, id: nat) returns (events: seq<Event>)
    requires AllWellFormed(w.statuses.Keys) && !(hash in w.sticky && w.sticky[hash] in QuarantinedNow(c, w))
    ensures var (q, r) := Stick(c, AsRouting(w), hash);
            Leads(c, With(w.(sticky := w.sticky - {hash}), id, LookupMissed(hash, ActiveSet(c.health, w.statuses))),
                  events, Reaching(w, r, id, LookupDone(q)))
    ensures forall e | e in events :: e == Continue(id)
  {
    var active, w0 := ActiveSet(c.health, w.statuses), w.(sticky := w.sticky - {hash});
    var m := With(w0, id, LookupMissed(hash, active));
    var (try, r) := Tries(c, AsRouting(w0));
    StickSamples(c, w, hash);
    SamplingIsDecided(c, w0, hash, id);
    LeadsOne(c, m, Continue(id));
    events := [Continue(id)];
    if try {
      var w1 := w0.(attempts := r.attempts);
      var more := SampleIsFinished(c, w1, hash, id);
      var (q, t) := Sampled(c, r, hash);
      LeadsOn(c, m, events, With(w1, id, LookupTries(hash, active)), more, Reaching(w, t, id, LookupDone(q)));
      events := events + more;
    }
  }

  /** A lookup that no other call interrupts returns and changes what the lookup of the whole-operation model does. */
  lemma LookupAloneIsStick(c: Config, w: World, hash: int, id: nat) returns (events: seq<Event>)
    requires AllWellFormed(w.statuses.Keys) && id !in w.calls
    ensures var (q, r) := Stick(c, AsRouting(w), hash); Leads(c, w, events, Reaching(w, r, id, LookupDone(q)))
    ensures forall e | e in events :: e == Begin(id, LookupBegun(hash)) || e == Continue(id)
  {
    var active := ActiveSet(c.health, w.statuses);
    var both := With(w, id, LookupHasBoth(hash, active, QuarantinedNow(c, w)));
    var (q, r) := Stick(c, AsRouting(w), hash);
    events := LookupSnapshots(c, w, hash, id);
    if hash in w.sticky && w.sticky[hash] in QuarantinedNow(c, w) {
      CacheHits(c, w, hash, id);
      LeadsThrough(c, w, events, both, id, Reaching(w, r, id, LookupDone(q)));
      events := events + [Continue(id)];
    } else {
      CacheMisses(c, w, hash, id);
      var m := With(w.(sticky := w.sticky - {hash}), id, LookupMissed(hash, active));
      LeadsThrough(c, w, events, both, id, m);
      events := events + [Continue(id)];
      var more := MissIsSampled(c, w, hash, id);
      LeadsOn(c, w, events, m, more, Reaching(w, r, id, LookupDone(q)));
      events := events + more;
    }
  }

  lemma ReportSections(c: Config, w: World, u: Url, o: Observation, id: nat)
    ensures var statuses := Reported(c.health, w.statuses, u, o);
            var t := w.(statuses := statuses);
            && Section(c, With(w, id, ReportBegun(u, o)), id) == With(t, id, ReportRecorded(u))
            && Section(c, With(t, id, ReportRecorded(u)), id) ==
               With(t, id, if u in statuses && statuses[u].state == Quarantined then ReportDone
                           else ReportMustForget(u))
            && Section(c, With(t, id, ReportMustForget(u)), id) ==
               With(t.(sticky := WithoutNode(w.sticky, u)), id, ReportDone)
  {
    var t := w.(statuses := Reported(c.health, w.statuses, u, o));
    assert With(w, id, ReportBegun(u, o)).calls[id := ReportRecorded(u)] == With(t, id, ReportRecorded(u)).calls;
    assert With(t, id, ReportRecorded(u)).calls[id := ReportDone] == With(t, id, ReportDone).calls;
    assert With(t, id, ReportRecorded(u)).calls[id := ReportMustForget(u)] == With(t, id, ReportMustForget(u)).calls;
    assert With(t, id, ReportMustForget(u)).calls[id := ReportDone] == With(t, id, ReportDone).calls;
  }

  /** A report that no other call interrupts changes what the report of the whole-operation model does. */
  lemma ReportAloneIsObserve(c: Config, w: World, u: Url, o: Observation, id: nat) returns (events: seq<Event>)
    requires id !in w.calls
    ensures Leads(c, w, events, Reaching(w, Observe(c, AsRouting(w), u, o), id, ReportDone))
    ensures forall e | e in events :: e == Begin(id, ReportBegun(u, o)) || e == Continue(id)
  {
    var begin, t := Begin(id, ReportBegun(u, o)), w.(statuses := Reported(c.health, w.statuses, u, o));
    ReportSections(c, w, u, o, id);
    LeadsOne(c, w, begin);
    LeadsThrough(c, w, [begin], With(w, id, ReportBegun(u, o)), id, With(t, id, ReportRecorded(u)));
    events := [begin] + [Continue(id)];
    var quarantined := u in t.statuses && t.statuses[u].state == Quarantined;
    LeadsThrough(c, w, events, With(t, id, ReportRecorded(u)), id,
                 With(t, id, if quarantined then ReportDone else ReportMustForget(u)));
    events := events + [Continue(id)];
    if !quarantined {
      LeadsThrough(c, w, events, With(t, id, ReportMustForget(u)), id,
                   With(t.(sticky := WithoutNode(w.sticky, u)), id, ReportDone));
      events := events + [Continue(id)];
    }
  }

  /** A removal that no other call interrupts forgets the node and its entries. */
  lemma RemovalAloneForgets(c: Config, w: World, u: Url, id: nat) returns (events: seq<Event>)
    requires id !in w.calls
    ensures Leads(c, w, events,
                  With(w.(statuses := w.statuses - {u}, sticky := WithoutNode(w.sticky, u)), id, RemovalDone))
  {
    var begin, t := Begin(id, RemovalBegun(u)), w.(statuses := w.statuses - {u});
    assert With(w, id, RemovalBegun(u)).calls[id := RemovalMustForget(u)] == With(t, id, RemovalMustForget(u)).calls;
    assert With(t, id, RemovalMustForget(u)).calls[id := RemovalDone] == With(t, id, RemovalDone).calls;
    LeadsOne(c, w, begin);
    LeadsThrough(c, w, [begin], With(w, id, RemovalBegun(u)), id, With(t, id, RemovalMustForget(u)));
    LeadsThrough(c, w, [begin] + [Continue(id)], With(t, id, RemovalMustForget(u)), id,
                 With(t.(sticky := WithoutNode(w.sticky, u)), id, RemovalDone));
    events := [begin] + [Continue(id)] + [Continue(id)];
  }

  /** A probe that no other call interrupts records what its request came to, and leaves the cache alone. */
  lemma ProbeAloneRecords(c: Config, w: World, u: Url, o: Observation, id: nat) returns (events: seq<Event>)
    requires id !in w.calls && u in DownSet(c.health, w.statuses)
    ensures Leads(c, w, events, With(w.(statuses := Reported(c.health, w.statuses, u, o)), id, ProbeDone))
  {
    var begin, t := Begin(id, ProbeListed(u, o)), w.(statuses := Reported(c.health, w.statuses, u, o));
    ProbeIsSent(c, w, u, o, id);
    assert With(w, id, ProbeSent(u, o)).calls[id := ProbeDone] == With(t, id, ProbeDone).calls;
    LeadsOne(c, w, begin);
    LeadsThrough(c, w, [begin], With(w, id, ProbeListed(u, o)), id, With(w, id, ProbeSent(u, o)));
    LeadsThrough(c, w, [begin] + [Continue(id)], With(w, id, ProbeSent(u, o)), id, With(t, id, ProbeDone));
    events := [begin] + [Continue(id)] + [Continue(id)];
  }
}
