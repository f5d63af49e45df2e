/** The live-node object (src/live_nodes.cpp, AlternatorLiveNodes): its methods carry out the steps of the
    routing state machine on the node list, the health store, the sticky cache and the counters. */
module LiveNodesClient {
  import opened Urls
  import opened NodeLists
  import opened NodeHealth
  import opened QueryPlans
  import opened LiveNodes
  import opened Discovery
  import opened Basics
  import LocalNodesJson
  import Affinity
  import RoutingTheorems

  /** GetNodesFromEndpoint, with its parsing loops. */
  method GetNodesFromEndpoint(d: Settings, reply: Reply) returns (a: Answer)
    ensures a == Interpret(d, reply)
  {
    match reply {
      case NoResponse =>
        return Unreachable;
      case Response(status, body) =>
        if status != 200 {
          return StatusError(status);
        }
        var hosts := LocalNodesJson.ParseJsonStringArray(body);
        if hosts.None? {
          return Malformed;
        }
        return Nodes(ToUrls(d, hosts.value));
    }
  }

  /** The cache when all entries but those of `rest` have been visited. */
  function ErasedSoFar(sticky: map<int, Url>, u: Url, rest: set<(int, Url)>): map<int, Url> {
    map h | h in sticky && ((h, sticky[h]) in rest || sticky[h] != u) :: sticky[h]
  }

  lemma ErasedOneMore(sticky: map<int, Url>, u: Url, rest: set<(int, Url)>, entry: (int, Url))
    requires entry in rest && entry in sticky.Items
    ensures ErasedSoFar(sticky, u, rest - {entry}) ==
            if entry.1 == u then ErasedSoFar(sticky, u, rest) - {entry.0} else ErasedSoFar(sticky, u, rest)
  {
  }

  lemma ScopeIsVisit(c: Config, d: Settings, env: Environment, s: Routing, k: nat)
    requires k < |d.scopes|
    ensures var w := VisitNodes(Asking(d, env, k), d.scopes[k], DiscoveryOrder(c, d, env, s, k), [], false);
            VisitScope(c, d, env, s, k) == Visit(w.outcome, if d.scopes[k] then w.steps else [Planned] + w.steps)
  {
  }

  lemma PlannedFirst(c: Config, s: Routing, t: Routing, steps: seq<Step>)
    requires t == PlanNodes(c, s).1
    ensures Exec(c, s, [Planned] + steps) == Exec(c, t, steps)
  {
    ExecOne(c, s, Planned);
    ExecSplits(c, s, [Planned], steps);
  }

  lemma FirstIsWellFormed(u: Url, rest: seq<Url>)
    requires AllWellFormed(Members([u] + rest))
    ensures u.WellFormed() && AllWellFormed(Members(rest))
  {
    assert u in Members([u] + rest) && Members(rest) <= Members([u] + rest);
  }

  function WithAdded(c: Config, m: Statuses, nodes: set<Url>): Statuses {
    m + map u | u in nodes && u !in m :: Fresh(c.health)
  }

  lemma AddedOneMore(c: Config, m: Statuses, nodes: set<Url>, u: Url)
    ensures WithAdded(c, m, nodes + {u}) == Added(c.health, WithAdded(c, m, nodes), u)
  {
  }

  lemma InstallParts(c: Config, s: Routing, nodes: seq<Url>)
    ensures var removed := Members(s.live) - Members(nodes);
            Install(c, s, nodes) == s.(live := SortAndDedupeNodes(nodes),
                                       statuses := WithAdded(c, s.statuses, Members(nodes)) - removed,
                                       sticky := map h | h in s.sticky && s.sticky[h] !in removed :: s.sticky[h])
  {
  }

  class AlternatorLiveNodes {
    const config: Config
    const settings: Settings
    const health: NodeHealthStore
    var live: seq<Url>
    var sticky: map<int, Url>
    var nextNode: nat
    var attempts: nat
    var turn: nat

    ghost function View(): Routing
      reads this, health
    {
      Routing(live, health.statuses, sticky, nextNode, attempts, turn)
    }

    ghost predicate Valid()
      reads this, health
    {
      && health.Valid() && health.config == config.health && Usable(config.health)
      && Invariant(config, View())
      && settings.initial != [] && AllWellFormed(Members(settings.initial))
    }

    ghost predicate StoreIsReady()
      reads this, health
    {
      health.Valid() && health.config == config.health && Sound(View())
    }

    /** The store's lists are the sorted lists of the routing state. */
    method ActiveInOrder() returns (nodes: seq<Url>)
      requires StoreIsReady()
      ensures nodes == ActiveNodes(config, View())
    {
      nodes := health.GetActiveNodes();
      ListingIsInOrder(nodes, ActiveOf(config, View()));
    }

    method QuarantinedInOrder() returns (nodes: seq<Url>)
      requires StoreIsReady()
      ensures nodes == QuarantinedNodes(config, View())
    {
      nodes := health.GetQuarantinedNodes();
      ListingIsInOrder(nodes, QuarantineOf(config, View()));
    }

    /** An empty list of initial nodes is rejected by the source. */
    constructor (h: HealthConfig, interval: Uint32, pick: Picker, d: Settings)
      requires d.initial != [] && AllWellFormed(Members(d.initial))
      ensures Valid() && fresh(health)
      ensures config == Config(Normalised(h), interval, pick)
      ensures settings == d.(initial := SortAndDedupeNodes(d.initial))
      ensures View() == Start(config, d.initial)
      ensures sticky == map[] && nextNode == attempts == turn == 0 && Members(live) == Members(d.initial)
      ensures forall u | u in d.initial :: u in health.statuses && health.statuses[u].state == Active
    {
      config := Config(Normalised(h), interval, pick);
      var sorted := SortAndDedupeNodes(d.initial);
      SortAndDedupeIsStrict(d.initial);
      assert d.initial[0] in Members(sorted);
      settings := d.(initial := sorted);
      live := sorted;
      var store := new NodeHealthStore(h, sorted);
      health := store;
      sticky, nextNode, attempts, turn := map[], 0, 0, 0;
      new;
      AddedAllSpec(config.health, sorted);
      StartIsInvariant(config, d.initial);
    }

    // ----- Health -----

    method RemoveQuarantineHashAssignmentsForNode(u: Url)
      modifies this`sticky
      ensures sticky == WithoutNode(old(sticky), u)
    {
      ghost var before := sticky;
      var rest := sticky.Items;
      while rest != {}
        invariant rest <= before.Items && sticky == ErasedSoFar(before, u, rest)
        decreases |rest|
      {
        var entry :| entry in rest;
        ErasedOneMore(before, u, rest, entry);
        if entry.1 == u {
          sticky := sticky - {entry.0};
        }
        rest := rest - {entry};
      }
    }

    /** The node may be spelt in any way; under another spelling than that of the node list the cache can be left
        naming a node that is not quarantined. */
    method ReportNodeResult(u: Url, o: Observation)
      requires Valid()
      modifies this`sticky, health
      ensures View() == ObserveAs(config, old(View()), u, o)
      ensures Valid() <==> !Misspells(config, old(View()), u, o)
      ensures u.WellFormed() ==> Valid() && View() == Observe(config, old(View()), u, o)
    {
      ReportKeepsExactly(config, View(), u, o);
      RecordAndClean(u, o);
    }

    method RecordAndClean(u: Url, o: Observation)
      requires StoreIsReady()
      modifies this`sticky, health
      ensures health.Valid() && View() == ObserveAs(config, old(View()), u, o)
    {
      var quarantined := Record(u, o);
      if !quarantined {
        RemoveQuarantineHashAssignmentsForNode(u);
      }
    }

    /** Records the observation and looks at the node's state afterwards. */
    method Record(u: Url, o: Observation) returns (quarantined: bool)
      requires StoreIsReady()
      modifies health
      ensures var k := KeyOf(old(health.statuses), u);
              && health.Valid() && health.statuses == Reported(config.health, old(health.statuses), k, o)
              && quarantined == (k in health.statuses && health.statuses[k].state == Quarantined)
    {
      ghost var before := health.statuses;
      health.ReportNodeResult(u, o);
      assert health.statuses.Keys == before.Keys;
      KeyOfSameKeys(before, health.statuses, u);
      var status := health.GetNodeStatus(u);
      quarantined := status.Some? && status.value.state == Quarantined;
    }

    method ProbeDownNodes(env: Environment) returns (responsive: seq<Url>)
      requires Valid()
      modifies health
      ensures Valid() && View() == Probe(config, old(View()), u => ProbeResult(env.probe(u)))
      ensures responsive == InOrder(Responsive(config.health, old(health.statuses), u => ProbeResult(env.probe(u))))
      ensures forall u | u in DownSet(config.health, old(health.statuses)) ::
                u in health.statuses &&
                health.statuses[u].state == (if Responds(env.probe(u)) then Quarantined else Down) &&
                (u in responsive <==> Responds(env.probe(u)))
    {
      ProbeKeeps(config, View(), u => ProbeResult(env.probe(u)));
      responsive := health.ProbeDownNodes(u => ProbeResult(env.probe(u)));
      ListingIsInOrder(responsive, Responsive(config.health, old(health.statuses), u => ProbeResult(env.probe(u))));
      assert forall u :: u in responsive <==> u in Members(responsive);
    }

    // ----- Routing -----

    method ShouldTryQuarantinedNode(activeEmpty: bool) returns (try: bool)
      requires StoreIsReady()
      requires activeEmpty == (ActiveOf(config, View()) == {})
      modifies this`attempts
      ensures (try, View()) == Tries(config, old(View()))
    {
      var quarantined := QuarantinedInOrder();
      if quarantined == [] {
        return false;
      }
      if activeEmpty {
        return true;
      }
      var interval := if config.interval == 0 then 1 else config.interval;
      attempts := Bump(attempts);
      return attempts % interval == 0;
    }

    method NextQuarantinedNode() returns (u: Url)
      requires StoreIsReady()
      modifies this`turn
      ensures (u, View()) == TakeQuarantined(config, old(View()))
    {
      var nodes := QuarantinedInOrder();
      if nodes == [] {
        return NO_URL;
      }
      u := nodes[turn % |nodes|];
      turn := Bump(turn);
    }

    method SampleQuarantined(activeEmpty: bool) returns (u: Url)
      requires StoreIsReady()
      requires activeEmpty == (ActiveOf(config, View()) == {})
      modifies this`attempts, this`turn
      ensures (u, View()) == Sample(config, old(View()))
    {
      var try := ShouldTryQuarantinedNode(activeEmpty);
      if !try {
        return NO_URL;
      }
      u := NextQuarantinedNode();
    }

    method NextNode(env: Environment) returns (u: Url)
      requires Valid()
      modifies this`attempts, this`turn, this`nextNode, health
      ensures Valid() && (u, View()) == LiveNodes.NextNode(config, old(View()), v => ProbeResult(env.probe(v)))
      ensures u.Empty() <==> !config.health.disabled && forall v | v in old(health.statuses) ::
                               old(health.statuses)[v].state == Down && !Responds(env.probe(v))
    {
      NextNodeIsEmptyExactly(config, View(), env);
      var candidates := ActiveInOrder();
      if candidates == [] {
        var _ := ProbeDownNodes(env);
        candidates := ActiveInOrder();
      }
      u := RouteAmong(candidates);
    }

    /** The rest of NextNode: a sampled quarantined node, or the next active one. */
    method RouteAmong(candidates: seq<Url>) returns (u: Url)
      requires Valid() && candidates == ActiveNodes(config, View())
      modifies this`attempts, this`turn, this`nextNode
      ensures Valid() && (u, View()) == Route(config, old(View()))
    {
      StepKeepsInvariant(config, View(), Routed);
      SampleSpec(config, View());
      u := SampleQuarantined(candidates == []);
      if !u.Empty() {
        return;
      }
      if candidates == [] {
        return NO_URL;
      }
      u := candidates[nextNode % |candidates|];
      nextNode := Bump(nextNode);
    }

    method GetQueryPlanNodes() returns (nodes: seq<Url>)
      requires Valid()
      modifies this`attempts, this`turn
      ensures Valid() && (nodes, View()) == PlanNodes(config, old(View()))
    {
      StepKeepsInvariant(config, View(), Planned);
      SampleSpec(config, View());
      nodes := ActiveInOrder();
      var u := SampleQuarantined(nodes == []);
      if !u.Empty() {
        nodes := nodes + [u];
      } else {
        assert nodes + [] == nodes;
      }
      nodes := SortAndDedupeNodes(nodes);
    }

    method StickyQuarantinedNodeForHash(hash: int, active: seq<Url>) returns (u: Url)
      requires Valid() && active == ActiveNodes(config, View())
      modifies this`attempts, this`turn, this`sticky
      ensures Valid() && (u, View()) == Stick(config, old(View()), hash)
    {
      LookKeeps(config, View(), hash);
      var quarantined := QuarantinedInOrder();
      assert forall v :: v in quarantined <==> v in Members(quarantined);
      if hash in sticky && sticky[hash] in quarantined {
        u := sticky[hash];
        StickHit(config, View(), hash);
        if !IsFirstForHash(config, u, active, hash) {
          sticky := sticky - {hash};
          return NO_URL;
        }
        return;
      }
      sticky := sticky - {hash};
      SampleSpec(config, View());
      u := SampleQuarantined(active == []);
      if u.Empty() || !IsFirstForHash(config, u, active, hash) {
        return NO_URL;
      }
      sticky := sticky[hash := u];
    }

    method GetQueryPlanNodesForHash(hash: int) returns (nodes: seq<Url>)
      requires Valid()
      modifies this`attempts, this`turn, this`sticky
      ensures Valid() && (nodes, View()) == NodesForHash(config, old(View()), hash)
    {
      var active := ActiveInOrder();
      SortOfStrict(active);
      active := SortAndDedupeNodes(active);
      var u := StickyQuarantinedNodeForHash(hash, active);
      nodes := AppendMissingNodes(if u.Empty() then [] else [u], active);
    }

    method NextKnownNode() returns (u: Url)
      requires Valid()
      modifies this`nextNode
      ensures Valid() && (u, View()) == KnownNode(old(View()))
      ensures u == old(live)[old(nextNode) % |old(live)|]
    {
      u := live[nextNode % |live|];
      nextNode := Bump(nextNode);
    }

    /** The plan of a write with a known partition key. */
    method PlanForKey(hash: int) returns (plan: QueryPlan)
      requires Valid()
      modifies this`attempts, this`turn, this`sticky
      ensures Valid() && fresh(plan) && View() == NodesForHash(config, old(View()), hash).1
      ensures plan.View() == Affinity.PartitionKeyPlan(config.pick, ActiveNodes(config, old(View())),
                                                       NodesForHash(config, old(View()), hash).0, hash)
    {
      var active := ActiveInOrder();
      var nodes := GetQueryPlanNodesForHash(hash);
      plan := Affinity.QueryPlanForPartitionKey(config.pick, active, nodes, hash);
    }

    /** The plan of a write: fails if the table has no partition key or the values do not have it, and otherwise is the
        plan for the hash of the key's value. */
    method PlanForPartitionKey(op: Affinity.Operation, keying: Affinity.Keying) returns (r: Result<QueryPlan>)
      requires Valid()
      modifies this`attempts, this`turn, this`sticky
      ensures Valid() && (r.Ok? <==> Affinity.HasKey(op, keying))
      ensures r.Err? ==> View() == old(View())
      ensures r.Ok? ==>
              var hash := keying.hash(Affinity.KeyValue(op, keying));
              && fresh(r.value) && View() == NodesForHash(config, old(View()), hash).1
              && r.value.View() == Affinity.PartitionKeyPlan(config.pick, ActiveNodes(config, old(View())),
                                                             NodesForHash(config, old(View()), hash).0, hash)
    {
      Affinity.HashOfTheKey(op, keying);
      var hash := Affinity.HashPartitionKey(op.values, op.table, keying);
      if hash.Err? {
        return Err;
      }
      var plan := PlanForKey(hash.value);
      return Ok(plan);
    }

    /** The nodes offered for any of the hashes, or those of a general plan if there are none. */
    method QueryPlanNodesForHashes(hashes: seq<int>) returns (nodes: seq<Url>)
      requires Valid()
      modifies this`attempts, this`turn, this`sticky
      ensures Valid() && (nodes, View()) == NodesForHashes(config, old(View()), hashes, [])
    {
      nodes := [];
      assert hashes[0..] == hashes;
      for i := 0 to |hashes|
        invariant Valid() && NodesForHashes(config, View(), hashes[i..], nodes) ==
                             NodesForHashes(config, old(View()), hashes, [])
      {
        assert hashes[i..][0] == hashes[i] && hashes[i..][1..] == hashes[i + 1..];
        var offered := GetQueryPlanNodesForHash(hashes[i]);
        nodes := AppendMissingNodes(nodes, offered);
      }
      assert hashes[|hashes|..] == [];
      if nodes == [] {
        nodes := GetQueryPlanNodes();
      }
    }

    /** The plan of a batch of writes. */
    method PlanForBatch(ops: seq<Affinity.Operation>, keying: Affinity.Keying) returns (r: Result<QueryPlan>)
      requires Valid()
      modifies this`attempts, this`turn, this`sticky
      ensures Valid()
      ensures var hashes := Affinity.UsableHashes(ops, keying);
              var (nodes, t) := NodesForHashes(config, old(View()), hashes, []);
              && View() == t && AllWellFormed(Members(nodes))
              && AllWellFormed(Members(ActiveNodes(config, old(View()))))
              && var plan := Affinity.BatchWritePlan(config.pick, ActiveNodes(config, old(View())), nodes, hashes);
                 r.Ok? == plan.Ok? && (r.Ok? ==> fresh(r.value) && r.value.View() == plan.value)
    {
      var active := ActiveInOrder();
      var hashes := Affinity.BatchWriteHashes(ops, keying);
      RoutingTheorems.NodesForHashesAreAvailable(config, View(), hashes, []);
      RoutingTheorems.AvailableMembers(config, View(), NodesForHashes(config, View(), hashes, []).0);
      var nodes := QueryPlanNodesForHashes(hashes);
      r := Affinity.QueryPlanForBatchWrite(config.pick, active, nodes, ops, keying);
    }

    // ----- Refresh -----

    method AddNodes(nodes: seq<Url>)
      requires StoreIsReady() && AllWellFormed(Members(nodes))
      modifies health
      ensures StoreIsReady()
      ensures health.statuses == WithAdded(config, old(health.statuses), Members(nodes))
    {
      ghost var before := health.statuses;
      for i := 0 to |nodes|
        invariant StoreIsReady()
        invariant health.statuses == WithAdded(config, before, Members(nodes[..i]))
      {
        assert nodes[i] in Members(nodes);
        assert Members(nodes[..i + 1]) == Members(nodes[..i]) + {nodes[i]};
        AddedOneMore(config, before, Members(nodes[..i]), nodes[i]);
        KeyOfKnown(health.statuses, nodes[i]);
        health.AddNode(nodes[i]);
      }
      assert nodes[..|nodes|] == nodes;
    }

    method RemoveNode(u: Url)
      requires StoreIsReady() && u.WellFormed()
      modifies health
      ensures StoreIsReady() && health.statuses == old(health.statuses) - {u}
    {
      KeyOfKnown(health.statuses, u);
      health.RemoveNode(u);
    }

    method RemoveNodesMissingFrom(nodes: seq<Url>) returns (removed: seq<Url>)
      requires StoreIsReady() && AllWellFormed(Members(live))
      modifies health
      ensures StoreIsReady() && Members(removed) == Members(live) - Members(nodes)
      ensures health.statuses == old(health.statuses) - (Members(live) - Members(nodes))
    {
      removed := [];
      for i := 0 to |live|
        invariant StoreIsReady() && Members(removed) == Members(live[..i]) - Members(nodes)
        invariant health.statuses == old(health.statuses) - Members(removed)
      {
        assert Members(live[..i + 1]) == Members(live[..i]) + {live[i]};
        if live[i] !in nodes {
          assert live[i] in Members(live);
          RemoveNode(live[i]);
          assert Members(removed + [live[i]]) == Members(removed) + {live[i]};
          removed := removed + [live[i]];
        }
      }
      assert live[..|live|] == live;
    }

    method ForgetRemoved(removed: seq<Url>)
      modifies this`sticky
      ensures sticky == map h | h in old(sticky) && old(sticky)[h] !in Members(removed) :: old(sticky)[h]
    {
      for i := 0 to |removed|
        invariant sticky == map h | h in old(sticky) && old(sticky)[h] !in Members(removed[..i]) :: old(sticky)[h]
      {
        assert Members(removed[..i + 1]) == Members(removed[..i]) + {removed[i]};
        RemoveQuarantineHashAssignmentsForNode(removed[i]);
      }
      assert removed[..|removed|] == removed;
    }

    method InstallNodes(nodes: seq<Url>)
      requires Valid() && nodes != [] && AllWellFormed(Members(nodes))
      modifies this`live, this`sticky, health
      ensures Valid() && View() == Install(config, old(View()), nodes)
    {
      InstallKeeps(config, View(), nodes);
      InstallParts(config, View(), nodes);
      AddNodes(nodes);
      var removed := RemoveNodesMissingFrom(nodes);
      live := SortAndDedupeNodes(nodes);
      ForgetRemoved(removed);
    }

    /** GetNodesForScope: asks the nodes of the plan one after the other. */
    method GetNodesForScope(env: Environment, k: nat) returns (outcome: Outcome, ghost steps: seq<Step>)
      requires Valid() && k < |settings.scopes|
      modifies this`attempts, this`turn, this`sticky, health
      ensures Valid() && View() == Exec(config, old(View()), steps)
      ensures Visit(outcome, steps) == VisitScope(config, settings, env, old(View()), k)
    {
      ghost var s0 := View();
      ghost var order := DiscoveryOrder(config, settings, env, s0, k);
      OrderIsWellFormed(config, settings, env, s0, k);
      ScopeIsVisit(config, settings, env, s0, k);
      var nodes := settings.initial;
      if !settings.scopes[k] {
        nodes := GetQueryPlanNodes();
      }
      assert order == Drain(config.pick, WithSeed(nodes, env.seed(k)));
      ghost var s1 := View();
      var plan := new QueryPlan(config.pick, WithSeed(nodes, env.seed(k)));
      outcome, steps := AskAll(Asking(settings, env, k), settings.scopes[k], plan, order);
      if !settings.scopes[k] {
        PlannedFirst(config, s0, s1, steps);
        steps := [Planned] + steps;
      }
    }

    /** Blames a node in the course of some steps. */
    method ReportFailure(u: Url, o: Observation, ghost s0: Routing, ghost steps: seq<Step>)
      requires Valid() && u.WellFormed() && View() == Exec(config, s0, steps)
      modifies this`sticky, health
      ensures Valid() && View() == Exec(config, s0, steps + [Observed(u, o)])
    {
      ExecSplits(config, s0, steps, [Observed(u, o)]);
      ExecOne(config, View(), Observed(u, o));
      ReportNodeResult(u, o);
    }

    /** The loop of GetNodesForScope. */
    method AskAll(ask: Url -> Answer, cluster: bool, plan: QueryPlan, ghost order: seq<Url>)
      returns (outcome: Outcome, ghost steps: seq<Step>)
      requires Valid() && AllWellFormed(Members(order)) && order == Drain(plan.pick, plan.View())
      modifies this`sticky, health, plan
      ensures Valid() && View() == Exec(config, old(View()), steps)
      ensures Visit(outcome, steps) == VisitNodes(ask, cluster, order, [], false)
    {
      var discovered, failed := [], false;
      steps := [];
      ghost var rest := order;
      ghost var s0 := View();
      NextTakesOne(plan.pick, plan.View());
      var u := plan.Next();
      ghost var whole := VisitNodes(ask, cluster, order, [], false);
      assert [] + whole.steps == whole.steps;
      while !u.Empty()
        invariant Valid() && View() == Exec(config, s0, steps)
        invariant rest == if u.Empty() then [] else [u] + Drain(plan.pick, plan.View())
        invariant AllWellFormed(Members(rest)) && VisitProgress(ask, cluster, whole, rest, discovered, failed, steps)
        decreases !u.Empty(), |plan.nodes|
      {
        rest := Drain(plan.pick, plan.View());
        FirstIsWellFormed(u, rest);
        VisitProgressStep(ask, cluster, whole, u, rest, discovered, failed, steps);
        var answer := ask(u);
        match answer {
          case Nodes(nodes) =>
            if nodes != [] && !cluster {
              return Found(nodes), steps;
            }
            if nodes != [] {
              discovered := discovered + nodes;
            }
          case _ =>
            var o := Blame(answer);
            ReportFailure(u, o, s0, steps);
            failed := true;
            steps := steps + [Observed(u, o)];
        }
        NextTakesOne(plan.pick, plan.View());
        u := plan.Next();
      }
      assert steps + [] == steps;
      if discovered != [] {
        return Found(SortAndDedupeNodes(discovered)), steps;
      }
      if failed {
        return Threw, steps;
      }
      return Found([]), steps;
    }

    /** One turn of the loop of FetchLiveNodes, with `steps` of a fetch that comes to `whole` done. */
    method FetchScope(env: Environment, k: nat, ghost s0: Routing, ghost steps: seq<Step>, ghost whole: Visit)
      returns (outcome: Outcome, ghost done: seq<Step>)
      requires Valid() && k < |settings.scopes| && View() == Exec(config, s0, steps)
      requires FetchProgress(config, settings, env, whole, View(), k, steps)
      modifies this`attempts, this`turn, this`sticky, health
      ensures Valid() && View() == Exec(config, s0, done)
      ensures outcome == Found([]) ==> FetchProgress(config, settings, env, whole, View(), k + 1, done)
      ensures outcome != Found([]) ==> whole == Visit(outcome, done)
    {
      FetchProgressStep(config, settings, env, whole, View(), k, steps);
      ghost var visited;
      outcome, visited := GetNodesForScope(env, k);
      ExecSplits(config, s0, steps, visited);
      done := steps + visited;
    }

    /** FetchLiveNodes: the configured scope, then its fallbacks while nothing is found. */
    method FetchLiveNodes(env: Environment) returns (outcome: Outcome, ghost steps: seq<Step>)
      requires Valid()
      modifies this`attempts, this`turn, this`sticky, health
      ensures Valid() && View() == Exec(config, old(View()), steps)
      ensures Visit(outcome, steps) == Fetch(config, settings, env, old(View()), 0)
    {
      steps := [];
      ghost var s0 := View();
      var k := 0;
      ghost var whole := Fetch(config, settings, env, s0, 0);
      FetchProgressEnds(config, settings, env, whole, s0, []);
      while k < |settings.scopes|
        invariant Valid() && 0 <= k <= |settings.scopes| && View() == Exec(config, s0, steps)
        invariant FetchProgress(config, settings, env, whole, View(), k, steps)
      {
        outcome, steps := FetchScope(env, k, s0, steps, whole);
        if outcome != Found([]) {
          return;
        }
        k := k + 1;
      }
      FetchProgressEnds(config, settings, env, whole, View(), steps);
      outcome := Found([]);
    }

    /** UpdateLiveNodes returns false where the source throws. */
    method UpdateLiveNodes(env: Environment) returns (ok: bool)
      requires Valid() && FindsWellFormed(config, settings, env, View())
      modifies this`attempts, this`turn, this`sticky, this`live, health
      ensures Valid() && ok == Update(config, settings, env, old(View())).ok
      ensures View() == Exec(config, old(View()), Update(config, settings, env, old(View())).steps)
    {
      ghost var s0 := View();
      var outcome, steps := FetchLiveNodes(env);
      if outcome == Threw {
        return false;
      }
      if outcome.nodes == [] {
        ExecThenProbe(config, s0, steps, u => ProbeResult(env.probe(u)));
      } else {
        ExecThenInstall(config, s0, steps, outcome.nodes, u => ProbeResult(env.probe(u)));
        InstallNodes(outcome.nodes);
      }
      var _ := ProbeDownNodes(env);
      return true;
    }
  }
}
