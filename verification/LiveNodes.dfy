/** The routing state (src/live_nodes.cpp) as a state machine: what each elementary step of the
    client does to the node list, the health store, the sticky cache and the counters. */
module LiveNodes {
  import opened Urls
  import opened NodeLists
  import opened NodeHealth
  import opened QueryPlans

  const UINT64 := 0x1_0000_0000_0000_0000

  /** `fetch_add(1)` on an unsigned 64-bit counter. */
  function Bump(x: nat): nat {
    if x + 1 < UINT64 then x + 1 else 0
  }

  datatype Config = Config(health: HealthConfig, interval: Uint32, pick: Picker)

  /** `live` is live_nodes_, `sticky` quarantine_by_hash_; the counters are next_node_index_,
      quarantine_plan_index_ and quarantine_node_index_. */
  datatype Routing = Routing(live: seq<Url>, statuses: Statuses, sticky: map<int, Url>,
                             nextNode: nat, attempts: nat, turn: nat)

  ghost predicate Sound(s: Routing) {
    AllWellFormed(s.statuses.Keys)
  }

  function ActiveOf(c: Config, s: Routing): set<Url> {
    ActiveSet(c.health, s.statuses)
  }

  function QuarantineOf(c: Config, s: Routing): set<Url> {
    QuarantinedSet(c.health, s.statuses)
  }

  ghost function ActiveNodes(c: Config, s: Routing): seq<Url> {
    InOrder(ActiveOf(c, s))
  }

  ghost function QuarantinedNodes(c: Config, s: Routing): seq<Url> {
    InOrder(QuarantineOf(c, s))
  }

  // ----- Health steps -----

  function WithoutNode(sticky: map<int, Url>, u: Url): map<int, Url> {
    map h | h in sticky && sticky[h] != u :: sticky[h]
  }

  /** ReportNodeResult: the observation, then the cache entries of a node that is not quarantined. */
  function Observe(c: Config, s: Routing, u: Url, o: Observation): Routing {
    var statuses := Reported(c.health, s.statuses, u, o);
    if u in statuses && statuses[u].state == Quarantined then s.(statuses := statuses)
    else s.(statuses := statuses, sticky := WithoutNode(s.sticky, u))
  }

  /** ReportNodeResult for a node under any spelling: the store finds the key that prints alike, but the cache is
      searched for the node as it was given. */
  ghost function ObserveAs(c: Config, s: Routing, u: Url, o: Observation): Routing {
    var k := KeyOf(s.statuses, u);
    var statuses := Reported(c.health, s.statuses, k, o);
    if k in statuses && statuses[k].state == Quarantined then s.(statuses := statuses)
    else s.(statuses := statuses, sticky := WithoutNode(s.sticky, u))
  }

  /** The report takes a cached node out of quarantine under another spelling than its own. */
  ghost predicate Misspells(c: Config, s: Routing, u: Url, o: Observation) {
    var k := KeyOf(s.statuses, u);
    && k != u && k in s.statuses && LeavesQuarantine(c.health, s.statuses[k], o)
    && exists h | h in s.sticky :: s.sticky[h] == k
  }

  function Probe(c: Config, s: Routing, probe: Url -> Observation): Routing {
    s.(statuses := Probed(c.health, s.statuses, probe))
  }

  /** The part of UpdateLiveNodes that installs a non-empty list of fetched nodes. */
  function Install(c: Config, s: Routing, nodes: seq<Url>): Routing {
    var removed := Members(s.live) - Members(nodes);
    var added := map u | u in Members(nodes) && u !in s.statuses :: Fresh(c.health);
    s.(live := SortAndDedupeNodes(nodes),
       statuses := (s.statuses + added) - removed,
       sticky := map h | h in s.sticky && s.sticky[h] !in removed :: s.sticky[h])
  }

  // ----- Routing steps -----

  function Interval(c: Config): nat {
    AtLeastOne(c.interval)
  }

  /** ShouldTryQuarantinedNode consumes an attempt only if there is a choice to make. */
  predicate Asks(c: Config, s: Routing) {
    QuarantineOf(c, s) != {} && ActiveOf(c, s) != {}
  }

  function Tries(c: Config, s: Routing): (bool, Routing) {
    if QuarantineOf(c, s) == {} then (false, s)
    else if ActiveOf(c, s) == {} then (true, s)
    else (Bump(s.attempts) % Interval(c) == 0, s.(attempts := Bump(s.attempts)))
  }

  /** NextQuarantinedNode. */
  ghost function TakeQuarantined(c: Config, s: Routing): (Url, Routing) {
    var nodes := QuarantinedNodes(c, s);
    if nodes == [] then (NO_URL, s) else (nodes[s.turn % |nodes|], s.(turn := Bump(s.turn)))
  }

  /** A quarantined node if one is to be tried now. */
  ghost function Sample(c: Config, s: Routing): (Url, Routing) {
    var (try, s1) := Tries(c, s);
    if try then TakeQuarantined(c, s1) else (NO_URL, s1)
  }

  /** NextNode once Down nodes have been probed if no node was active. */
  ghost function Route(c: Config, s: Routing): (Url, Routing) {
    var (q, s1) := Sample(c, s);
    var active := ActiveNodes(c, s1);
    if !q.Empty() then (q, s1)
    else if active == [] then (NO_URL, s1)
    else (active[s1.nextNode % |active|], s1.(nextNode := Bump(s1.nextNode)))
  }

  ghost function NextNode(c: Config, s: Routing, probe: Url -> Observation): (Url, Routing) {
    Route(c, if ActiveOf(c, s) == {} then Probe(c, s, probe) else s)
  }

  /** GetQueryPlanNodes. */
  ghost function PlanNodes(c: Config, s: Routing): (seq<Url>, Routing) {
    var (q, s1) := Sample(c, s);
    (SortAndDedupeNodes(ActiveNodes(c, s1) + if q.Empty() then [] else [q]), s1)
  }

  /** QuarantinedNodeIsFirstForHash. */
  predicate IsFirstForHash(c: Config, u: Url, active: seq<Url>, hash: int) {
    FirstNodeWithSeed(c.pick, active + [u], hash) == u
  }

  /** StickyQuarantinedNodeForHash. */
  ghost function Stick(c: Config, s: Routing, hash: int): (Url, Routing) {
    var active := ActiveNodes(c, s);
    if hash in s.sticky && s.sticky[hash] in QuarantineOf(c, s) then
      if IsFirstForHash(c, s.sticky[hash], active, hash) then (s.sticky[hash], s)
      else (NO_URL, s.(sticky := s.sticky - {hash}))
    else
      var (q, s1) := Sample(c, s.(sticky := s.sticky - {hash}));
      if q.Empty() || !IsFirstForHash(c, q, active, hash) then (NO_URL, s1)
      else (q, s1.(sticky := s1.sticky[hash := q]))
  }

  /** GetQueryPlanNodesForHash. */
  ghost function NodesForHash(c: Config, s: Routing, hash: int): (seq<Url>, Routing) {
    var (q, s1) := Stick(c, s, hash);
    (Collect(if q.Empty() then [] else [q], ActiveNodes(c, s), []), s1)
  }

  /** What QueryPlanNodesForHashes offers a batch: the union over its hashes, or the general list. */
  ghost function NodesForHashes(c: Config, s: Routing, hashes: seq<int>, out: seq<Url>): (seq<Url>, Routing)
    decreases |hashes|
  {
    if hashes != [] then
      var (nodes, t) := NodesForHash(c, s, hashes[0]);
      NodesForHashes(c, t, hashes[1..], Collect(out, nodes, []))
    else if out == [] then PlanNodes(c, s)
    else (out, s)
  }

  /** NextKnownNode. */
  function KnownNode(s: Routing): (Url, Routing) {
    if s.live == [] then (NO_URL, s)
    else (s.live[s.nextNode % |s.live|], s.(nextNode := Bump(s.nextNode)))
  }

  // ----- Runs -----

  /** One elementary step. Every public operation is a sequence of these. */
  datatype Step =
    | Observed(node: Url, observation: Observation)
    | Probing(probe: Url -> Observation)
    | Installing(nodes: seq<Url>)
    | Routed
    | Planned
    | Looked(hash: int)
    | Known

  /** What the environment may feed in: well-formed nodes, and never an empty membership. */
  ghost predicate Allowed(step: Step) {
    match step
    case Observed(u, _) => u.WellFormed()
    case Installing(nodes) => nodes != [] && AllWellFormed(Members(nodes))
    case _ => true
  }

  ghost function Apply(c: Config, s: Routing, step: Step): Routing {
    match step
    case Observed(u, o) => Observe(c, s, u, o)
    case Probing(probe) => Probe(c, s, probe)
    case Installing(nodes) => Install(c, s, nodes)
    case Routed => Route(c, s).1
    case Planned => PlanNodes(c, s).1
    case Looked(hash) => NodesForHash(c, s, hash).1
    case Known => KnownNode(s).1
  }

  /** The node list is the sorted list of the store's keys and not empty, and every cached node
      is quarantined now. */
  ghost predicate Invariant(c: Config, s: Routing) {
    && Sound(s)
    && s.live != [] && s.live == InOrder(s.statuses.Keys)
    && (forall h | h in s.sticky :: s.sticky[h] in QuarantineOf(c, s))
    && s.nextNode < UINT64 && s.attempts < UINT64 && s.turn < UINT64
  }

  /** The constructor; `nodes` are the initial nodes. */
  function Start(c: Config, nodes: seq<Url>): Routing {
    Routing(SortAndDedupeNodes(nodes), map u | u in Members(nodes) :: Fresh(c.health), map[], 0, 0, 0)
  }

  lemma StartIsInvariant(c: Config, nodes: seq<Url>)
    requires nodes != [] && AllWellFormed(Members(nodes))
    ensures Invariant(c, Start(c, nodes))
  {
    assert Start(c, nodes).statuses.Keys == Members(nodes);
    InOrderOfMembers(nodes);
    assert nodes[0] in Members(nodes);
  }

  lemma ObserveKeeps(c: Config, s: Routing, u: Url, o: Observation)
    requires Invariant(c, s)
    ensures Invariant(c, Observe(c, s, u, o))
    ensures Observe(c, s, u, o).statuses.Keys == s.statuses.Keys
  {
    var t := Observe(c, s, u, o);
    assert t.statuses.Keys == s.statuses.Keys;
    forall h | h in t.sticky ensures t.sticky[h] in QuarantineOf(c, t) {
      assert t.sticky[h] == s.sticky[h] && s.sticky[h] in QuarantineOf(c, s);
    }
  }

  /** Under its own spelling a report is an elementary step; under another it keeps the invariant exactly if it does
      not take a cached node out of quarantine. */
  lemma ReportKeepsExactly(c: Config, s: Routing, u: Url, o: Observation)
    requires Invariant(c, s)
    ensures KeyOf(s.statuses, u) == u ==> ObserveAs(c, s, u, o) == Observe(c, s, u, o)
    ensures u.WellFormed() ==> KeyOf(s.statuses, u) == u
    ensures Invariant(c, ObserveAs(c, s, u, o)) <==> !Misspells(c, s, u, o)
  {
    KeyOfKnown(s.statuses, u);
    WellFormedTextIdentifies(s.statuses.Keys);
    var k, t := KeyOf(s.statuses, u), ObserveAs(c, s, u, o);
    assert t.statuses.Keys == s.statuses.Keys;
    if k == u {
      ObserveKeeps(c, s, u, o);
    } else {
      MisspeltReport(c, s, u, o, k);
    }
  }

  lemma NotCached(c: Config, s: Routing, u: Url)
    requires Invariant(c, s) && u !in s.statuses
    ensures WithoutNode(s.sticky, u) == s.sticky
  {
    assert forall h | h in s.sticky :: s.sticky[h] in QuarantineOf(c, s);
  }

  lemma MisspeltReport(c: Config, s: Routing, u: Url, o: Observation, k: Url)
    requires Invariant(c, s) && k == KeyOf(s.statuses, u) && k != u && u !in s.statuses
    ensures Invariant(c, ObserveAs(c, s, u, o)) <==> !Misspells(c, s, u, o)
  {
    var t := ObserveAs(c, s, u, o);
    assert t.statuses.Keys == s.statuses.Keys;
    NotCached(c, s, u);
    assert t == s.(statuses := Reported(c.health, s.statuses, k, o));
    if Misspells(c, s, u, o) {
      var h :| h in s.sticky && s.sticky[h] == k;
      assert k in QuarantineOf(c, s) && t.sticky[h] !in QuarantineOf(c, t);
    } else {
      forall h | h in t.sticky ensures t.sticky[h] in QuarantineOf(c, t) {
        assert s.sticky[h] in QuarantineOf(c, s);
      }
    }
  }

  lemma ProbeKeeps(c: Config, s: Routing, probe: Url -> Observation)
    requires Usable(c.health) && Invariant(c, s)
    ensures Invariant(c, Probe(c, s, probe))
  {
    ProbingQuarantinesTheResponsive(c.health, s.statuses, probe);
  }

  /** Installing nodes makes the membership exactly those nodes; nodes that stay keep their status. */
  lemma InstallSpec(c: Config, s: Routing, nodes: seq<Url>)
    requires Invariant(c, s) && nodes != [] && AllWellFormed(Members(nodes))
    ensures var t := Install(c, s, nodes);
            && t.statuses.Keys == Members(nodes) && t.live == InOrder(Members(nodes))
            && forall u | u in Members(nodes) ::
                 t.statuses[u] == if u in s.statuses then s.statuses[u] else Fresh(c.health)
  {
    InOrderOfMembers(nodes);
    var t := Install(c, s, nodes);
    assert Members(s.live) == s.statuses.Keys;
    assert t.statuses.Keys == Members(nodes);
  }

  lemma InstallKeeps(c: Config, s: Routing, nodes: seq<Url>)
    requires Invariant(c, s) && nodes != [] && AllWellFormed(Members(nodes))
    ensures Invariant(c, Install(c, s, nodes))
  {
    InstallSpec(c, s, nodes);
    var t := Install(c, s, nodes);
    assert nodes[0] in Members(nodes);
    assert Members(s.live) == s.statuses.Keys;
    forall h | h in t.sticky ensures t.sticky[h] in QuarantineOf(c, t) {
      assert s.sticky[h] in QuarantineOf(c, s) && t.sticky[h] == s.sticky[h];
      assert t.sticky[h] in Members(nodes);
    }
  }

  /** What the routing steps change: counters, and one cache entry. */
  lemma SampleSpec(c: Config, s: Routing)
    requires Sound(s)
    ensures var (q, t) := Sample(c, s);
            && t == s.(attempts := t.attempts, turn := t.turn)
            && t.attempts == (if QuarantineOf(c, s) != {} && ActiveOf(c, s) != {} then Bump(s.attempts) else s.attempts)
            && (s.turn < UINT64 ==> t.turn < UINT64)
            && (q.Empty() || q in QuarantineOf(c, s))
            && (q.Empty() <==> || QuarantineOf(c, s) == {}
                               || (ActiveOf(c, s) != {} && Bump(s.attempts) % Interval(c) != 0))
  {
    var (try, s1) := Tries(c, s);
    var nodes := QuarantinedNodes(c, s1);
    assert QuarantineOf(c, s1) == QuarantineOf(c, s);
    if nodes != [] {
      assert nodes[s1.turn % |nodes|] in Members(nodes);
    }
  }

  /** The node that a sample takes is the one whose turn it is. */
  lemma SampleTurn(c: Config, s: Routing)
    requires Sound(s)
    ensures var (q, t) := Sample(c, s);
            && t.turn == (if q.Empty() then s.turn else Bump(s.turn))
            && (!q.Empty() ==> QuarantinedNodes(c, s) != [] && q == AtTurn(QuarantinedNodes(c, s), s.turn))
  {
    var (try, s1) := Tries(c, s);
    var nodes := QuarantinedNodes(c, s1);
    assert QuarantineOf(c, s1) == QuarantineOf(c, s);
    if nodes != [] {
      assert nodes[s1.turn % |nodes|] in Members(nodes);
    }
  }

  /** The element that a counter points at, modulo the length. */
  function AtTurn(nodes: seq<Url>, turn: nat): Url
    requires nodes != []
  {
    nodes[turn % |nodes|]
  }

  /** A lookup that finds its node still quarantined consumes nothing. */
  lemma StickHit(c: Config, s: Routing, hash: int)
    requires Sound(s) && hash in s.sticky && s.sticky[hash] in QuarantineOf(c, s)
    ensures Stick(c, s, hash) == if IsFirstForHash(c, s.sticky[hash], ActiveNodes(c, s), hash) then (s.sticky[hash], s)
                                 else (NO_URL, s.(sticky := s.sticky - {hash}))
  {
  }

  lemma StickMiss(c: Config, s: Routing, hash: int)
    requires Sound(s) && !(hash in s.sticky && s.sticky[hash] in QuarantineOf(c, s))
    ensures var (q, t) := Sample(c, s);
            Stick(c, s, hash) == if q.Empty() || !IsFirstForHash(c, q, ActiveNodes(c, s), hash)
                                 then (NO_URL, t.(sticky := s.sticky - {hash}))
                                 else (q, t.(sticky := s.sticky[hash := q]))
  {
    var s0 := s.(sticky := s.sticky - {hash});
    SampleSpec(c, s);
    SampleIgnoresSticky(c, s, s0.sticky);
    var q := Sample(c, s).0;
    assert s0.sticky[hash := q] == s.sticky[hash := q];
  }

  lemma SampleIgnoresSticky(c: Config, s: Routing, sticky: map<int, Url>)
    requires Sound(s)
    ensures Sample(c, s.(sticky := sticky)) == (Sample(c, s).0, Sample(c, s).1.(sticky := sticky))
  {
  }

  lemma StickSpec(c: Config, s: Routing, hash: int)
    requires Sound(s)
    ensures var (q, t) := Stick(c, s, hash);
            && t == s.(attempts := t.attempts, turn := t.turn, sticky := t.sticky)
            && (s.attempts < UINT64 ==> t.attempts < UINT64) && (s.turn < UINT64 ==> t.turn < UINT64)
            && t.sticky == (if q.Empty() then s.sticky - {hash} else s.sticky[hash := q])
            && (q.Empty() || (q in QuarantineOf(c, s) && IsFirstForHash(c, q, ActiveNodes(c, s), hash)))
  {
    if hash in s.sticky && s.sticky[hash] in QuarantineOf(c, s) {
      StickHit(c, s, hash);
      assert s.sticky[hash := s.sticky[hash]] == s.sticky;
    } else {
      StickMiss(c, s, hash);
      SampleSpec(c, s);
    }
  }

  lemma LookKeeps(c: Config, s: Routing, hash: int)
    requires Invariant(c, s)
    ensures Invariant(c, NodesForHash(c, s, hash).1)
  {
    StickSpec(c, s, hash);
  }

  lemma StepKeepsInvariant(c: Config, s: Routing, step: Step)
    requires Usable(c.health) && Invariant(c, s) && Allowed(step)
    ensures Invariant(c, Apply(c, s, step))
  {
    match step {
      case Observed(u, o) => ObserveKeeps(c, s, u, o);
      case Probing(probe) => ProbeKeeps(c, s, probe);
      case Installing(nodes) => InstallKeeps(c, s, nodes);
      case Routed => SampleSpec(c, s);
      case Planned => SampleSpec(c, s);
      case Looked(hash) => LookKeeps(c, s, hash);
      case Known =>
    }
  }

  ghost predicate AllAllowed(steps: seq<Step>) {
    forall i | 0 <= i < |steps| :: Allowed(steps[i])
  }

  /** The state after a list of steps. */
  ghost function Exec(c: Config, s: Routing, steps: seq<Step>): Routing
    decreases |steps|
  {
    if steps == [] then s else Exec(c, Apply(c, s, steps[0]), steps[1..])
  }

  lemma {:induction false} ExecKeepsInvariant(c: Config, s: Routing, steps: seq<Step>)
    requires Usable(c.health) && Invariant(c, s) && AllAllowed(steps)
    ensures Invariant(c, Exec(c, s, steps))
    decreases |steps|
  {
    if steps != [] {
      StepKeepsInvariant(c, s, steps[0]);
      ExecKeepsInvariant(c, Apply(c, s, steps[0]), steps[1..]);
    }
  }

  lemma {:induction false} ExecSplits(c: Config, s: Routing, a: seq<Step>, b: seq<Step>)
    ensures Exec(c, s, a + b) == Exec(c, Exec(c, s, a), b)
    decreases |a|
  {
    if a == [] {
      assert a + b == b;
    } else {
      assert (a + b)[1..] == a[1..] + b;
      ExecSplits(c, Apply(c, s, a[0]), a[1..], b);
    }
  }
}
