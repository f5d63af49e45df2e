/** What every run of the routing state machine guarantees (src/live_nodes.cpp). */
module RoutingTheorems {
  import opened Urls
  import opened NodeLists
  import opened NodeHealth
  import opened QueryPlans
  import opened LiveNodes
  import Affinity
  import Words

  // ----- Safety of every run -----

  /** After any run from construction: the store's keys are the non-empty node list, and every cached
      hash names a node that is quarantined at that moment. */
  lemma EveryRunIsConsistent(c: Config, nodes: seq<Url>, steps: seq<Step>)
    requires Usable(c.health) && nodes != [] && AllWellFormed(Members(nodes)) && AllAllowed(steps)
    ensures Invariant(c, Start(c, nodes))
    ensures var t := Exec(c, Start(c, nodes), steps);
            && t.live != [] && Members(t.live) == t.statuses.Keys && StrictlyOrdered(t.live)
            && forall h | h in t.sticky :: t.sticky[h] in t.statuses && t.statuses[t.sticky[h]].state == Quarantined
  {
    StartIsInvariant(c, nodes);
    ExecKeepsInvariant(c, Start(c, nodes), steps);
    var t := Exec(c, Start(c, nodes), steps);
    assert forall h | h in t.sticky :: t.sticky[h] in QuarantineOf(c, t);
  }

  // ----- Which nodes are offered -----

  /** A node the client may send a request to: known and not Down. */
  predicate Available(c: Config, s: Routing, u: Url) {
    u in s.statuses && (c.health.disabled || s.statuses[u].state != Down)
  }

  predicate AllAvailable(c: Config, s: Routing, nodes: seq<Url>) {
    forall u | u in nodes :: Available(c, s, u)
  }

  lemma AvailableNodes(c: Config, s: Routing)
    ensures forall u :: Available(c, s, u) <==> u in ActiveOf(c, s) || u in QuarantineOf(c, s)
  {
  }

  /** GetQueryPlanNodes offers every active node and at most one quarantined node, never a Down one,
      and something whenever any node is available. */
  lemma PlanNodesAreAvailable(c: Config, s: Routing)
    requires Sound(s)
    ensures var (nodes, t) := PlanNodes(c, s);
            && t.statuses == s.statuses && AllAvailable(c, t, nodes)
            && Members(nodes) == ActiveOf(c, s) + (if Sample(c, s).0.Empty() then {} else {Sample(c, s).0})
            && (nodes == [] <==> ActiveOf(c, s) + QuarantineOf(c, s) == {})
            && StrictlyOrdered(nodes)
  {
    SampleSpec(c, s);
    AvailableNodes(c, s);
    PlanIsSorted(c, s);
    var (q, s1) := Sample(c, s);
    PlanMembers(ActiveNodes(c, s1), q);
    var nodes := PlanNodes(c, s).0;
    assert forall u | u in nodes :: u in Members(nodes);
    assert nodes != [] ==> nodes[0] in Members(nodes);
  }

  lemma PlanIsSorted(c: Config, s: Routing)
    requires Sound(s)
    ensures StrictlyOrdered(PlanNodes(c, s).0)
  {
    SampleSpec(c, s);
    var (q, s1) := Sample(c, s);
    var all := ActiveNodes(c, s1) + if q.Empty() then [] else [q];
    forall u | u in Members(all) ensures u.WellFormed() {
      assert u in ActiveNodes(c, s1) ==> u in Members(ActiveNodes(c, s1));
    }
    WellFormedTextIdentifies(Members(all));
    SortAndDedupeIsStrict(all);
  }

  lemma PlanMembers(active: seq<Url>, q: Url)
    ensures var nodes := SortAndDedupeNodes(active + if q.Empty() then [] else [q]);
            Members(nodes) == Members(active) + if q.Empty() then {} else {q}
  {
    var extra := if q.Empty() then [] else [q];
    SortAndDedupeIsStrict(active + extra);
    assert Members(active + extra) == Members(active) + Members(extra);
    assert Members(extra) == if q.Empty() then {} else {q};
  }

  /** GetQueryPlanNodesForHash offers the sticky node first, if any, and then the active nodes in order. */
  lemma NodesForHashShape(c: Config, s: Routing, hash: int)
    requires Sound(s)
    ensures var q := Stick(c, s, hash).0;
            NodesForHash(c, s, hash).0 == (if q.Empty() then [] else [q]) + ActiveNodes(c, s)
    ensures NodesForHash(c, s, hash).1.statuses == s.statuses
  {
    StickSpec(c, s, hash);
    var q := Stick(c, s, hash).0;
    var active := ActiveNodes(c, s);
    assert forall u | u in active :: u in Members(active);
    CollectFresh(if q.Empty() then [] else [q], active, []);
  }

  lemma NodesForHashAreAvailable(c: Config, s: Routing, hash: int)
    requires Sound(s)
    ensures var (nodes, t) := NodesForHash(c, s, hash);
            && t.statuses == s.statuses && AllAvailable(c, t, nodes) && NoRepeats(nodes)
            && (nodes == [] <==> ActiveOf(c, s) + QuarantineOf(c, s) == {})
  {
    NodesForHashShape(c, s, hash);
    var q, active := Stick(c, s, hash).0, ActiveNodes(c, s);
    assert q.Empty() || q in QuarantineOf(c, s) by { StickSpec(c, s, hash); }
    if active == [] {
      StickWithoutActive(c, s, hash);
    }
    AppendToActive(c, s, q);
  }

  lemma AppendToActive(c: Config, s: Routing, q: Url)
    requires Sound(s) && (q.Empty() || q in QuarantineOf(c, s))
    ensures var nodes := (if q.Empty() then [] else [q]) + ActiveNodes(c, s);
            AllAvailable(c, s, nodes) && NoRepeats(nodes)
  {
    AvailableNodes(c, s);
    var pre, active := if q.Empty() then [] else [q], ActiveNodes(c, s);
    assert forall u | u in active :: u in Members(active);
    Affinity.AppendKeepsDistinct(pre, active);
  }

  /** With no active node a lookup returns a quarantined node if there is one. */
  lemma StickWithoutActive(c: Config, s: Routing, hash: int)
    requires Sound(s) && ActiveOf(c, s) == {}
    ensures Stick(c, s, hash).0.Empty() <==> QuarantineOf(c, s) == {}
  {
    StickSpec(c, s, hash);
    forall u | u in QuarantineOf(c, s) ensures IsFirstForHash(c, u, ActiveNodes(c, s), hash) {
      OnlyCandidateIsFirst(c, u, hash);
      assert ActiveNodes(c, s) == [];
    }
    if hash in s.sticky && s.sticky[hash] in QuarantineOf(c, s) {
      StickHit(c, s, hash);
    } else {
      StickMiss(c, s, hash);
      SampleSpec(c, s);
    }
  }

  lemma OnlyCandidateIsFirst(c: Config, u: Url, hash: int)
    ensures IsFirstForHash(c, u, [], hash)
  {
    assert [] + [u] == [u];
    assert SortNodes([u]) == [u];
    assert SortAndDedupeNodes([u]) == [u];
    assert [1][|[1]| - 1] == 1;
    assert c.pick(hash, [1]) < 1;
  }

  /** NextNode returns an available node. It returns none exactly if every known node was Down and
      the probe of every one of them failed. */
  lemma NextNodeIsAvailable(c: Config, s: Routing, probe: Url -> Observation)
    requires Usable(c.health) && Invariant(c, s)
    ensures var (u, t) := NextNode(c, s, probe);
            && (!u.Empty() ==> Available(c, t, u))
            && (u.Empty() <==> && !c.health.disabled
                               && forall v | v in s.statuses :: s.statuses[v].state == Down && probe(v) != Success)
            && (u.Empty() ==> && t.statuses == Probed(c.health, s.statuses, probe)
                              && forall v | v in t.statuses :: t.statuses[v].state == Down)
  {
    var s0 := if ActiveOf(c, s) == {} then Probe(c, s, probe) else s;
    ProbingQuarantinesTheResponsive(c.health, s.statuses, probe);
    SampleSpec(c, s0);
    AvailableNodes(c, s0);
    var (q, s1) := Sample(c, s0);
    var active := ActiveNodes(c, s1);
    if active != [] {
      assert active[s1.nextNode % |active|] in Members(active);
    }
    assert s.live[0] in Members(s.live);
    AllDownExactly(c, s, probe);
  }

  lemma AllDownExactly(c: Config, s: Routing, probe: Url -> Observation)
    requires Invariant(c, s)
    ensures (ActiveOf(c, s) == {} && QuarantineOf(c, s) + Responsive(c.health, s.statuses, probe) == {}) <==>
            (!c.health.disabled && forall v | v in s.statuses :: s.statuses[v].state == Down && probe(v) != Success)
  {
    assert s.live[0] in Members(s.live) && s.live[0] in s.statuses;
    if ActiveOf(c, s) == {} && QuarantineOf(c, s) + Responsive(c.health, s.statuses, probe) == {} {
      assert !c.health.disabled;
      forall v | v in s.statuses ensures s.statuses[v].state == Down && probe(v) != Success {
        assert v !in ActiveOf(c, s) && v !in QuarantineOf(c, s) && v !in Responsive(c.health, s.statuses, probe);
      }
    }
  }

  /** The plan of a partition key contains only available nodes, and is not empty if there is one. */
  lemma PartitionKeyPlanIsAvailable(c: Config, s: Routing, hash: int)
    requires Sound(s)
    ensures var (nodes, t) := NodesForHash(c, s, hash);
            var order := Drain(c.pick, Affinity.PartitionKeyPlan(c.pick, ActiveNodes(c, s), nodes, hash));
            && AllAvailable(c, t, order)
            && (order == [] <==> ActiveOf(c, s) + QuarantineOf(c, s) == {})
  {
    NodesForHashAreAvailable(c, s, hash);
    NodesForHashShape(c, s, hash);
    StickSpec(c, s, hash);
    AvailableNodes(c, s);
    var (nodes, t) := NodesForHash(c, s, hash);
    var active := ActiveNodes(c, s);
    assert Members(active) == ActiveOf(c, s);
    assert forall u | u in active :: u in Members(active);
    if active == [] {
      DrainMembers(c.pick, WithSortedSeed(nodes, hash));
      var order := Drain(c.pick, WithSortedSeed(nodes, hash));
      assert forall u | u in order :: u in Members(order) && u in Members(nodes);
    } else {
      Affinity.PartitionKeyPlanIsSamplesThenSeededOrder(c.pick, active, nodes, hash);
      var order := SeededOrder(c.pick, active, hash);
      assert forall u | u in order :: u in Members(order);
      assert active[0] in Members(order);
    }
  }

  lemma {:induction false} NodesForHashesAreAvailable(c: Config, s: Routing, hashes: seq<int>, out: seq<Url>)
    requires Usable(c.health) && Invariant(c, s) && AllAvailable(c, s, out)
    ensures var (nodes, t) := NodesForHashes(c, s, hashes, out);
            && t.statuses == s.statuses && AllAvailable(c, s, nodes)
            && (nodes == [] ==> ActiveOf(c, s) + QuarantineOf(c, s) == {})
    decreases |hashes|
  {
    if hashes != [] {
      var (nodes, t) := NodesForHash(c, s, hashes[0]);
      LookKeeps(c, s, hashes[0]);
      NodesForHashAreAvailable(c, s, hashes[0]);
      CollectSpec(out, nodes, []);
      NodesForHashesAreAvailable(c, t, hashes[1..], Collect(out, nodes, []));
    } else if out == [] {
      PlanNodesAreAvailable(c, s);
    }
  }

  ghost function Lookups(hashes: seq<int>): seq<Step> {
    seq(|hashes|, i requires 0 <= i < |hashes| => Looked(hashes[i]))
  }

  lemma LookupFirst(c: Config, s: Routing, hashes: seq<int>)
    requires hashes != []
    ensures Exec(c, s, Lookups(hashes)) == Exec(c, NodesForHash(c, s, hashes[0]).1, Lookups(hashes[1..]))
  {
    assert Lookups(hashes)[0] == Looked(hashes[0]) && Lookups(hashes)[1..] == Lookups(hashes[1..]);
  }

  /** Every hash of a batch is looked up, in order, and whatever is offered for it is offered for the batch. */
  lemma {:induction false} EveryHashIsLookedUp(c: Config, s: Routing, hashes: seq<int>, out: seq<Url>, i: nat)
    requires i < |hashes|
    ensures var r := NodesForHashes(c, s, hashes, out);
            var t := Exec(c, s, Lookups(hashes));
            && (r.1 == t || r == PlanNodes(c, t))
            && (forall u | u in out :: u in r.0)
            && forall u | u in NodesForHash(c, Exec(c, s, Lookups(hashes[..i])), hashes[i]).0 && !u.Empty() :: u in r.0
    decreases |hashes|
  {
    var (nodes, t) := NodesForHash(c, s, hashes[0]);
    var out', rest := Collect(out, nodes, []), hashes[1..];
    CollectSpec(out, nodes, []);
    LookupFirst(c, s, hashes);
    if rest == [] {
      assert hashes[..0] == [] && Lookups([]) == [] && Exec(c, s, []) == s;
      assert Exec(c, t, Lookups(rest)) == t;
      if out' != [] { assert NodesForHashes(c, t, rest, out') == (out', t); }
      else { assert NodesForHashes(c, t, rest, out') == PlanNodes(c, t); }
    } else {
      EveryHashIsLookedUp(c, t, rest, out', if i > 0 then i - 1 else 0);
      if i == 0 {
        assert hashes[..0] == [] && Lookups([]) == [] && Exec(c, s, []) == s;
      } else {
        LookupFirst(c, s, hashes[..i]);
        assert hashes[..i][1..] == rest[..i - 1];
      }
    }
  }

  lemma AvailableMembers(c: Config, s: Routing, nodes: seq<Url>)
    requires Sound(s) && AllAvailable(c, s, nodes)
    ensures Members(nodes) <= ActiveOf(c, s) + QuarantineOf(c, s) && AllWellFormed(Members(nodes)) && NoneEmpty(nodes)
  {
    AvailableNodes(c, s);
    forall u | u in nodes ensures u in ActiveOf(c, s) + QuarantineOf(c, s) && u.WellFormed() {
      assert Available(c, s, u);
    }
  }

  /** The plan of a batch contains only available nodes. It exists, and is then not empty, exactly if some operation
      is usable and some node is available. */
  lemma BatchPlanIsAvailable(c: Config, s: Routing, hashes: seq<int>)
    requires Usable(c.health) && Invariant(c, s)
    ensures AllWellFormed(Members(NodesForHashes(c, s, hashes, []).0))
    ensures var plan := Affinity.BatchWritePlan(c.pick, ActiveNodes(c, s), NodesForHashes(c, s, hashes, []).0, hashes);
            && (plan.Ok? <==> hashes != [] && ActiveOf(c, s) + QuarantineOf(c, s) != {})
            && (plan.Ok? ==> AllAvailable(c, s, Drain(c.pick, plan.value)) && Drain(c.pick, plan.value) != [])
  {
    NodesForHashesAreAvailable(c, s, hashes, []);
    AvailableNodes(c, s);
    var (nodes, t) := NodesForHashes(c, s, hashes, []);
    AvailableMembers(c, s, nodes);
    var active := ActiveNodes(c, s);
    var plan := Affinity.BatchWritePlan(c.pick, active, nodes, hashes);
    assert nodes != [] ==> nodes[0] in Members(nodes);
    if hashes == [] {
      if active != [] { Affinity.SortedActive(active); }
      assert plan.Err?;
    } else if active != [] {
      Affinity.BatchPlanShape(c.pick, active, nodes, hashes);
      var order := Drain(c.pick, plan.value);
      assert forall u | u in order :: u in Members(order);
      assert active[0] in Members(active) && active[0] in Members(order);
    } else if nodes != [] {
      DrainMembers(c.pick, plan.value);
      var order := Drain(c.pick, plan.value);
      assert forall u | u in order :: u in Members(order);
    }
  }

  // ----- The sticky choice -----

  /** In every state of the run the node is quarantined. */
  ghost predicate StaysQuarantined(c: Config, states: seq<Routing>, q: Url) {
    forall i | 0 <= i < |states| :: q in QuarantineOf(c, states[i])
  }

  predicate HasEntry(s: Routing, hash: int, q: Url) {
    hash in s.sticky && s.sticky[hash] == q
  }

  lemma ObserveKeepsEntry(c: Config, s: Routing, u: Url, o: Observation, hash: int, q: Url)
    requires HasEntry(s, hash, q) && q in QuarantineOf(c, Observe(c, s, u, o))
    ensures HasEntry(Observe(c, s, u, o), hash, q)
  {
  }

  lemma InstallKeepsEntry(c: Config, s: Routing, nodes: seq<Url>, hash: int, q: Url)
    requires HasEntry(s, hash, q) && q in QuarantineOf(c, Install(c, s, nodes))
    ensures HasEntry(Install(c, s, nodes), hash, q)
  {
  }

  lemma LookKeepsEntry(c: Config, s: Routing, h: int, hash: int, q: Url)
    requires Sound(s) && HasEntry(s, hash, q) && q in QuarantineOf(c, s)
    requires h == hash ==> IsFirstForHash(c, q, ActiveNodes(c, s), hash)
    ensures HasEntry(NodesForHash(c, s, h).1, hash, q)
  {
    if h == hash {
      StickHit(c, s, h);
    } else {
      StickSpec(c, s, h);
    }
  }

  lemma StepKeepsEntry(c: Config, s: Routing, step: Step, t: Routing, hash: int, q: Url)
    requires Sound(s) && t == Apply(c, s, step)
    requires HasEntry(s, hash, q) && q in QuarantineOf(c, s) && q in QuarantineOf(c, t)
    requires step == Looked(hash) ==> IsFirstForHash(c, q, ActiveNodes(c, s), hash)
    ensures HasEntry(t, hash, q)
  {
    match step {
      case Observed(u, o) => ObserveKeepsEntry(c, s, u, o, hash, q);
      case Probing(probe) =>
      case Installing(nodes) => InstallKeepsEntry(c, s, nodes, hash, q);
      case Routed => SampleSpec(c, s);
      case Planned => SampleSpec(c, s);
      case Looked(h) => LookKeepsEntry(c, s, h, hash, q);
      case Known =>
    }
  }

  /** At every lookup for the hash the node is the first of itself and the nodes then active. */
  ghost predicate FirstAtLookups(c: Config, states: seq<Routing>, steps: seq<Step>, hash: int, q: Url)
    requires |states| == |steps| + 1
  {
    forall i {:trigger steps[i]} | 0 <= i < |steps| && steps[i] == Looked(hash) ::
      IsFirstForHash(c, q, ActiveNodes(c, states[i]), hash)
  }

  /** Every lookup for the hash returns the node. */
  ghost predicate ReturnedAtLookups(c: Config, states: seq<Routing>, steps: seq<Step>, hash: int, q: Url)
    requires |states| == |steps| + 1
  {
    forall i {:trigger steps[i]} | 0 <= i < |steps| && steps[i] == Looked(hash) ::
      Stick(c, states[i], hash).0 == q
  }

  lemma EntryAfterStep(c: Config, states: seq<Routing>, steps: seq<Step>, hash: int, q: Url, i: nat)
    requires IsRun(c, states, steps) && StaysQuarantined(c, states, q) && i < |steps| && HasEntry(states[i], hash, q)
    requires FirstAtLookups(c, states, steps, hash, q)
    ensures HasEntry(states[i + 1], hash, q)
  {
    var t := states[i + 1];
    assert t == Apply(c, states[i], steps[i]) && q in QuarantineOf(c, t);
    StepKeepsEntry(c, states[i], steps[i], t, hash, q);
  }

  lemma {:induction false} HoldsThroughout(flags: seq<bool>, n: nat)
    requires n < |flags| && flags[0] && forall i {:trigger flags[i]} | 0 <= i < |flags| - 1 :: flags[i] ==> flags[i + 1]
    ensures flags[n]
  {
    if n > 0 {
      HoldsThroughout(flags, n - 1);
    }
  }

  lemma EntrySurvives(c: Config, states: seq<Routing>, steps: seq<Step>, hash: int, q: Url, n: nat)
    requires IsRun(c, states, steps) && HasEntry(states[0], hash, q) && StaysQuarantined(c, states, q)
    requires FirstAtLookups(c, states, steps, hash, q) && n <= |steps|
    ensures HasEntry(states[n], hash, q)
  {
    var flags := seq(|states|, i requires 0 <= i < |states| => HasEntry(states[i], hash, q));
    forall i | 0 <= i < |steps| && HasEntry(states[i], hash, q) ensures HasEntry(states[i + 1], hash, q) {
      EntryAfterStep(c, states, steps, hash, q, i);
    }
    HoldsThroughout(flags, n);
  }

  /** Over any run in which the cached node of a hash stays quarantined, every lookup for the hash returns
      it if and only if at each of those lookups the node is the first of itself and the nodes then active. */
  lemma StickyChoiceLastsExactly(c: Config, states: seq<Routing>, steps: seq<Step>, hash: int, q: Url)
    requires IsRun(c, states, steps) && HasEntry(states[0], hash, q) && StaysQuarantined(c, states, q)
    ensures ReturnedAtLookups(c, states, steps, hash, q) <==> FirstAtLookups(c, states, steps, hash, q)
  {
    forall i | 0 <= i < |steps| && steps[i] == Looked(hash)
      ensures Stick(c, states[i], hash).0 == q ==> IsFirstForHash(c, q, ActiveNodes(c, states[i]), hash)
      ensures FirstAtLookups(c, states, steps, hash, q) ==> Stick(c, states[i], hash).0 == q
    {
      assert q in QuarantineOf(c, states[i]);
      StickSpec(c, states[i], hash);
      if FirstAtLookups(c, states, steps, hash, q) {
        EntrySurvives(c, states, steps, hash, q, i);
        StickHit(c, states[i], hash);
      }
    }
  }

  /** The nodes of a set that come before this one. */
  function Below(nodes: set<Url>, q: Url): set<Url> {
    set a | a in nodes && Less(a, q)
  }

  lemma {:induction false} RankInOrder(s: seq<Url>, k: nat)
    requires StrictlyOrdered(s) && k < |s|
    ensures |Below(Members(s), s[k])| == k
  {
    assert s == [s[0]] + s[1..];
    if k == 0 {
      NothingBeforeFirst(s);
      assert Below(Members(s), s[k]) == {};
    } else {
      RankInOrder(s[1..], k - 1);
      var rest := Below(Members(s[1..]), s[k]);
      assert s[1..][k - 1] == s[k] && s[k] in s[1..];
      assert s[0] !in rest by { TextTrichotomy(s[0].ToString(), s[0].ToString()); }
      assert Below(Members(s), s[k]) == rest + {s[0]};
    }
  }

  lemma NothingBeforeFirst(s: seq<Url>)
    requires s != [] && StrictlyOrdered(s)
    ensures forall u | u in s :: !Less(u, s[0])
  {
    assert s == [s[0]] + s[1..];
    forall u | u in s ensures !Less(u, s[0]) {
      TextTrichotomy(u.ToString(), s[0].ToString());
    }
  }

  /** What being first means: the generator's first answer for the hash is the node's rank among the
      active nodes and itself. */
  lemma FirstForHashIsRank(c: Config, q: Url, active: set<Url>, hash: int)
    requires AllWellFormed(active) && q.WellFormed() && q !in active
    ensures IsFirstForHash(c, q, InOrder(active), hash) <==>
            c.pick(hash, [|active| + 1]) == |Below(active, q)|
  {
    var sorted, k := CandidatesInOrder(c, q, active, hash);
    assert q in Members(sorted);
    var j :| 0 <= j < |sorted| && sorted[j] == q;
    RankInOrder(sorted, j);
    NotBelowItself(q, active);
    assert sorted[k] == q <==> k == j;
  }

  lemma CandidatesInOrder(c: Config, q: Url, active: set<Url>, hash: int) returns (sorted: seq<Url>, k: nat)
    requires AllWellFormed(active) && q.WellFormed() && q !in active
    ensures sorted == InOrder(active + {q}) && k == c.pick(hash, [|active| + 1]) < |sorted|
    ensures FirstNodeWithSeed(c.pick, InOrder(active) + [q], hash) == sorted[k]
  {
    SortedCandidates(q, active);
    sorted := InOrder(active + {q});
    var bound := [|active| + 1];
    assert bound[|bound| - 1] == |sorted|;
    k := c.pick(hash, bound);
  }

  lemma SortedCandidates(q: Url, active: set<Url>)
    requires AllWellFormed(active) && q.WellFormed() && q !in active
    ensures SortAndDedupeNodes(InOrder(active) + [q]) == InOrder(active + {q})
    ensures |InOrder(active + {q})| == |active| + 1
  {
    var all := InOrder(active) + [q];
    assert Members(all) == Members(InOrder(active)) + {q};
    InOrderOfMembers(all);
    SizeOfMembers(InOrder(active + {q}));
  }

  lemma NotBelowItself(q: Url, active: set<Url>)
    ensures Below(active + {q}, q) == Below(active, q)
  {
    TextTrichotomy(q.ToString(), q.ToString());
  }

  lemma {:induction false} SizeOfMembers(s: seq<Url>)
    requires NoRepeats(s)
    ensures |Members(s)| == |s|
  {
    if s != [] {
      NoRepeatsCons(s);
      SizeOfMembers(s[1..]);
      assert Members(s) == Members(s[1..]) + {s[0]};
    }
  }

  lemma LookupHits(c: Config, t: Routing, hash: int, q: Url)
    requires Sound(t) && HasEntry(t, hash, q) && q in QuarantineOf(c, t)
    requires IsFirstForHash(c, q, ActiveNodes(c, t), hash)
    ensures NodesForHash(c, t, hash) == ([q] + ActiveNodes(c, t), t)
  {
    StickHit(c, t, hash);
    NodesForHashShape(c, t, hash);
  }

  /** Once a lookup for a hash returned a quarantined node, then at every moment of any run in which the node
      stays quarantined and the active nodes stay the same, a lookup for the hash puts that node first and
      changes nothing, so it consumes no sampling attempt. */
  lemma StickyChoiceLasts(c: Config, s: Routing, hash: int, states: seq<Routing>, steps: seq<Step>, i: nat)
    requires Invariant(c, s) && !Stick(c, s, hash).0.Empty()
    requires IsRun(c, states, steps) && states[0] == Stick(c, s, hash).1 && i < |states|
    requires StaysQuarantined(c, states, Stick(c, s, hash).0)
    requires forall j | 0 <= j < |states| :: ActiveOf(c, states[j]) == ActiveOf(c, s)
    ensures NodesForHash(c, states[i], hash) == ([Stick(c, s, hash).0] + ActiveNodes(c, s), states[i])
  {
    StickSpec(c, s, hash);
    var q := Stick(c, s, hash).0;
    assert HasEntry(states[0], hash, q);
    EntrySurvives(c, states, steps, hash, q, i);
    LookupHits(c, states[i], hash, q);
  }

  /** Of two nodes in order, the one that a hash prefers, and the other one. */
  function Winner(c: Config, hash: int, x: Url, y: Url): Url {
    if c.pick(hash, [2]) == 0 then x else y
  }

  function Loser(c: Config, hash: int, x: Url, y: Url): Url {
    if c.pick(hash, [2]) == 0 then y else x
  }

  /** A node alone fails, recovers into quarantine and is remembered for a hash; then another node joins. */
  ghost function JoinedByAnother(q: Url, a: Url, hash: int): seq<Step> {
    [Observed(q, ConnectionFailure), Observed(q, Success), Looked(hash), Installing([a, q])]
  }

  lemma AloneInQuarantine(c: Config, q: Url)
    requires Usable(c.health) && !c.health.disabled && q.WellFormed()
    ensures var t := Observe(c, Observe(c, Start(c, [q]), q, ConnectionFailure), q, Success);
            && t.live == [q] && t.statuses == map[q := Status(Quarantined, 0, 1)] && t.sticky == map[]
            && QuarantineOf(c, t) == {q} && ActiveOf(c, t) == {}
  {
    var s := Start(c, [q]);
    assert SortNodes([q]) == [q];
    assert s.statuses == map[q := Fresh(c.health)];
    var t := Observe(c, Observe(c, s, q, ConnectionFailure), q, Success);
    assert t.statuses == map[q := Status(Quarantined, 0, 1)];
  }

  lemma RememberedAlone(c: Config, s: Routing, q: Url, hash: int)
    requires Sound(s) && s.sticky == map[] && QuarantineOf(c, s) == {q} && ActiveOf(c, s) == {}
    ensures NodesForHash(c, s, hash).1.sticky == map[hash := q]
    ensures NodesForHash(c, s, hash).1.statuses == s.statuses && NodesForHash(c, s, hash).1.live == s.live
  {
    StickWithoutActive(c, s, hash);
    StickSpec(c, s, hash);
  }

  lemma SecondOfTwo(c: Config, hash: int, q: Url, a: Url)
    requires q.WellFormed() && a.WellFormed() && a != q
    requires c.pick(hash, [2]) != if Less(a, q) then 1 else 0
    ensures !IsFirstForHash(c, q, InOrder({a}), hash)
  {
    RankAmongTwo(q, a);
    NotFirstByRank(c, q, {a}, hash, 2, if Less(a, q) then 1 else 0);
  }

  lemma NotFirstByRank(c: Config, q: Url, active: set<Url>, hash: int, n: nat, rank: nat)
    requires AllWellFormed(active) && q.WellFormed() && q !in active
    requires n == |active| + 1 && rank == |Below(active, q)| != c.pick(hash, [n])
    ensures !IsFirstForHash(c, q, InOrder(active), hash)
  {
    FirstForHashIsRank(c, q, active, hash);
  }

  lemma RankAmongTwo(q: Url, a: Url)
    ensures |Below({a}, q)| == if Less(a, q) then 1 else 0
  {
    if Less(a, q) {
      assert Below({a}, q) == {a};
    } else {
      assert Below({a}, q) == {};
    }
  }

  lemma LoserIsNotFirst(c: Config, hash: int, x: Url, y: Url)
    requires x.WellFormed() && y.WellFormed() && Less(x, y)
    ensures var q := Loser(c, hash, x, y);
            var a := Winner(c, hash, x, y);
            a != q && !IsFirstForHash(c, q, InOrder({a}), hash)
  {
    TextTrichotomy(x.ToString(), y.ToString());
    SecondOfTwo(c, hash, Loser(c, hash, x, y), Winner(c, hash, x, y));
  }

  lemma DroppedWhenJoined(c: Config, hash: int, q: Url, a: Url)
    requires Usable(c.health) && !c.health.disabled && q.WellFormed() && a.WellFormed() && a != q
    requires !IsFirstForHash(c, q, InOrder({a}), hash)
    ensures var t := Exec(c, Start(c, [q]), JoinedByAnother(q, a, hash));
            && HasEntry(t, hash, q) && q in QuarantineOf(c, t)
            && Stick(c, t, hash) == (NO_URL, t.(sticky := map[]))
  {
    var s := RememberedState(c, hash, q, a);
    AnotherJoins(c, s, q, a, hash);
    var t := Install(c, s, [a, q]);
    assert t.statuses.Keys == {q, a};
    DropsWhenNotFirst(c, t, q, a, hash);
  }

  lemma RememberedState(c: Config, hash: int, q: Url, a: Url) returns (s: Routing)
    requires Usable(c.health) && !c.health.disabled && q.WellFormed()
    ensures s.live == [q] && s.statuses == map[q := Status(Quarantined, 0, 1)] && s.sticky == map[hash := q]
    ensures Exec(c, Start(c, [q]), JoinedByAnother(q, a, hash)) == Install(c, s, [a, q])
  {
    AloneInQuarantine(c, q);
    var s1 := Observe(c, Observe(c, Start(c, [q]), q, ConnectionFailure), q, Success);
    RememberedAlone(c, s1, q, hash);
    s := NodesForHash(c, s1, hash).1;
    JoinedSteps(c, Start(c, [q]), q, a, hash);
  }

  lemma JoinedSteps(c: Config, s: Routing, q: Url, a: Url, hash: int)
    ensures Exec(c, s, JoinedByAnother(q, a, hash)) ==
            Install(c, NodesForHash(c, Observe(c, Observe(c, s, q, ConnectionFailure), q, Success), hash).1, [a, q])
  {
    var w, x, y, z := Observed(q, ConnectionFailure), Observed(q, Success), Looked(hash), Installing([a, q]);
    ExecFour(c, s, w, x, y, z);
    var s1 := Apply(c, s, w);
    var s2 := Apply(c, s1, x);
    AppliedStep(c, s, s1, s2, q, a, hash);
  }

  lemma AppliedStep(c: Config, s: Routing, s1: Routing, s2: Routing, q: Url, a: Url, hash: int)
    ensures Apply(c, s, Observed(q, ConnectionFailure)) == Observe(c, s, q, ConnectionFailure)
    ensures Apply(c, s1, Observed(q, Success)) == Observe(c, s1, q, Success)
    ensures Apply(c, Apply(c, s2, Looked(hash)), Installing([a, q])) == Install(c, NodesForHash(c, s2, hash).1, [a, q])
  {
  }

  /** The documentation promises that a hash keeps its node until the node leaves quarantine. It does not:
      of any two nodes one is such that, remembered while alone, it is dropped when the other joins. */
  lemma StickyChoiceCanBeDropped(c: Config, hash: int, x: Url, y: Url)
    requires Usable(c.health) && !c.health.disabled && x.WellFormed() && y.WellFormed() && Less(x, y)
    ensures var q, a := Loser(c, hash, x, y), Winner(c, hash, x, y);
            var t := Exec(c, Start(c, [q]), JoinedByAnother(q, a, hash));
            && AllAllowed(JoinedByAnother(q, a, hash))
            && HasEntry(t, hash, q) && q in QuarantineOf(c, t)
            && Stick(c, t, hash) == (NO_URL, t.(sticky := map[]))
  {
    LoserIsNotFirst(c, hash, x, y);
    DroppedWhenJoined(c, hash, Loser(c, hash, x, y), Winner(c, hash, x, y));
    JoiningIsAllowed(Loser(c, hash, x, y), Winner(c, hash, x, y), hash);
  }

  lemma JoiningIsAllowed(q: Url, a: Url, hash: int)
    requires q.WellFormed() && a.WellFormed()
    ensures AllAllowed(JoinedByAnother(q, a, hash))
  {
    assert forall u | u in Members([a, q]) :: u == a || u == q;
  }

  lemma AnotherJoins(c: Config, s: Routing, q: Url, a: Url, hash: int)
    requires s.live == [q] && s.statuses == map[q := Status(Quarantined, 0, 1)] && s.sticky == map[hash := q]
    requires !c.health.disabled && a != q
    ensures var t := Install(c, s, [a, q]);
            && t.statuses == TwoStatuses(c, q, a) && t.sticky == map[hash := q]
            && ActiveOf(c, t) == {a} && QuarantineOf(c, t) == {q}
  {
    InstallsAnother(c, s, q, a, hash);
    StatesOfTwo(c, q, a);
  }

  function TwoStatuses(c: Config, q: Url, a: Url): Statuses {
    map[q := Status(Quarantined, 0, 1), a := Fresh(c.health)]
  }

  lemma StatesOfTwo(c: Config, q: Url, a: Url)
    requires !c.health.disabled && a != q
    ensures ActiveSet(c.health, TwoStatuses(c, q, a)) == {a} && QuarantinedSet(c.health, TwoStatuses(c, q, a)) == {q}
  {
  }

  lemma InstallsAnother(c: Config, s: Routing, q: Url, a: Url, hash: int)
    requires s.live == [q] && s.statuses == map[q := Status(Quarantined, 0, 1)] && s.sticky == map[hash := q]
    requires a != q
    ensures Install(c, s, [a, q]).statuses == TwoStatuses(c, q, a) && Install(c, s, [a, q]).sticky == map[hash := q]
  {
    assert Members([q]) == {q} && Members([a, q]) == {a, q};
    assert Members(s.live) - Members([a, q]) == {};
    var t := Install(c, s, [a, q]);
    assert t.statuses.Keys == {a, q} && t.statuses[q] == s.statuses[q] && t.statuses[a] == Fresh(c.health);
    assert t.sticky.Keys == {hash} && t.sticky[hash] == q;
  }

  lemma DropsWhenNotFirst(c: Config, t: Routing, q: Url, a: Url, hash: int)
    requires Sound(t) && t.sticky == map[hash := q] && ActiveOf(c, t) == {a} && QuarantineOf(c, t) == {q}
    requires !IsFirstForHash(c, q, InOrder({a}), hash)
    ensures Stick(c, t, hash) == (NO_URL, t.(sticky := map[]))
  {
    StickHit(c, t, hash);
    assert map[hash := q] - {hash} == map[];
  }

  lemma MisspeltFailure(c: Config, s: Routing, q: Url, other: Url, hash: int)
    requires !c.health.disabled && other != q && PrintsAlike(q, other)
    requires s.statuses == map[q := Status(Quarantined, 0, 1)] && s.sticky == map[hash := q]
    ensures var t := ObserveAs(c, s, other, ConnectionFailure);
            HasEntry(t, hash, q) && q in t.statuses && t.statuses[q].state == Down
  {
    assert q in s.statuses && KeyOf(s.statuses, other) == q;
  }

  /** A report about the remembered node in another spelling, such as `[::1]` for `::1`, takes the node down and
      leaves its entry in the cache. */
  lemma OtherSpellingLeavesStaleEntry(c: Config, q: Url, other: Url, hash: int)
    requires Usable(c.health) && !c.health.disabled && q.WellFormed() && other != q && PrintsAlike(q, other)
    ensures var s := NodesForHash(c, Observe(c, Observe(c, Start(c, [q]), q, ConnectionFailure), q, Success), hash).1;
            var t := ObserveAs(c, s, other, ConnectionFailure);
            HasEntry(t, hash, q) && q in t.statuses && t.statuses[q].state == Down
  {
    AloneInQuarantine(c, q);
    var s := Observe(c, Observe(c, Start(c, [q]), q, ConnectionFailure), q, Success);
    RememberedAlone(c, s, q, hash);
    MisspeltFailure(c, NodesForHash(c, s, hash).1, q, other, hash);
  }

  lemma ExecFour(c: Config, s: Routing, w: Step, x: Step, y: Step, z: Step)
    ensures Exec(c, s, [w, x, y, z]) == Apply(c, Apply(c, Apply(c, Apply(c, s, w), x), y), z)
  {
    var s1 := Apply(c, s, w);
    var s2 := Apply(c, s1, x);
    var s3 := Apply(c, s2, y);
    assert [w, x, y, z][1..] == [x, y, z] && [x, y, z][1..] == [y, z] && [y, z][1..] == [z] && [z][1..] == [];
    assert Exec(c, s, [w, x, y, z]) == Exec(c, s1, [x, y, z]) == Exec(c, s2, [y, z]) == Exec(c, s3, [z]);
    assert Exec(c, s3, [z]) == Exec(c, Apply(c, s3, z), []);
  }

  /** While nothing is quarantined a key's plan starts with the first of the active nodes for its hash. */
  lemma PlainPlanStart(c: Config, t: Routing, hash: int)
    requires Sound(t) && ActiveOf(c, t) != {} && QuarantineOf(c, t) == {}
    ensures var nodes := NodesForHash(c, t, hash).0;
            var order := Drain(c.pick, Affinity.PartitionKeyPlan(c.pick, ActiveNodes(c, t), nodes, hash));
            order != [] && order[0] == FirstNodeWithSeed(c.pick, ActiveNodes(c, t), hash)
  {
    var active := ActiveNodes(c, t);
    assert NodesForHash(c, t, hash).0 == active by {
      NodesForHashShape(c, t, hash);
      StickSpec(c, t, hash);
      assert [] + active == active;
    }
    Affinity.PartitionKeyPlanIsSamplesThenSeededOrder(c.pick, active, active, hash);
    Affinity.NoSamplesAmongActive(active);
    Affinity.PlanStartsWithFirst(c.pick, active, hash);
  }

  lemma JoiningActiveKeepsFirst(c: Config, before: set<Url>, q: Url, t: Routing, hash: int)
    requires Sound(t) && AllWellFormed(before) && IsFirstForHash(c, q, InOrder(before), hash)
    requires ActiveOf(c, t) == before + {q} && QuarantineOf(c, t) == {}
    ensures var nodes := NodesForHash(c, t, hash).0;
            var order := Drain(c.pick, Affinity.PartitionKeyPlan(c.pick, ActiveNodes(c, t), nodes, hash));
            order != [] && order[0] == q
  {
    PlainPlanStart(c, t, hash);
    var joined := InOrder(before) + [q];
    assert Members(joined) == Members(InOrder(before)) + {q};
    FirstDependsOnMembers(c.pick, ActiveNodes(c, t), joined, hash);
  }

  /** If the chosen node is then promoted and no node is quarantined any more, the key's plan over the
      enlarged set of active nodes still starts with it. */
  lemma PromotionKeepsPreference(c: Config, s: Routing, hash: int, t: Routing)
    requires Sound(s) && Sound(t) && !Stick(c, s, hash).0.Empty()
    requires ActiveOf(c, t) == ActiveOf(c, s) + {Stick(c, s, hash).0} && QuarantineOf(c, t) == {}
    ensures var nodes := NodesForHash(c, t, hash).0;
            var order := Drain(c.pick, Affinity.PartitionKeyPlan(c.pick, ActiveNodes(c, t), nodes, hash));
            order != [] && order[0] == Stick(c, s, hash).0
  {
    var q := Stick(c, s, hash).0;
    assert IsFirstForHash(c, q, ActiveNodes(c, s), hash) by { StickSpec(c, s, hash); }
    JoiningActiveKeepsFirst(c, ActiveOf(c, s), q, t, hash);
  }

  lemma FirstDependsOnMembers(pick: Picker, a: seq<Url>, b: seq<Url>, hash: int)
    requires Members(a) == Members(b) && AllWellFormed(Members(a))
    ensures FirstNodeWithSeed(pick, a, hash) == FirstNodeWithSeed(pick, b, hash)
  {
    WellFormedTextIdentifies(Members(a));
    SortAndDedupeDependsOnMembers(a, b);
  }

  // ----- Sampling and round robin -----

  /** The step asks whether to try a quarantined node; a lookup that finds its node still quarantined does not. */
  ghost predicate Chooses(c: Config, s: Routing, step: Step) {
    match step
    case Routed => true
    case Planned => true
    case Looked(hash) => !(hash in s.sticky && s.sticky[hash] in QuarantineOf(c, s))
    case _ => false
  }

  /** The step consumes a sampling attempt. */
  ghost predicate Consumes(c: Config, s: Routing, step: Step) {
    Chooses(c, s, step) && Asks(c, s)
  }

  /** The step takes a quarantined node. */
  ghost predicate Takes(c: Config, s: Routing, step: Step) {
    Chooses(c, s, step) && !Sample(c, s).0.Empty()
  }

  /** The attempt it consumes is one that tries a quarantined node. */
  ghost predicate TriesQuarantined(c: Config, s: Routing, step: Step) {
    Consumes(c, s, step) && Takes(c, s, step)
  }

  /** A run with all its states. */
  ghost predicate IsRun(c: Config, states: seq<Routing>, steps: seq<Step>) {
    && |states| == |steps| + 1
    && (forall i | 0 <= i < |states| :: Invariant(c, states[i]))
    && forall i {:trigger steps[i]} | 0 <= i < |steps| :: states[i + 1] == Apply(c, states[i], steps[i])
  }

  /** Every run of allowed steps has its states. */
  lemma {:induction false} RunHasStates(c: Config, s: Routing, steps: seq<Step>) returns (states: seq<Routing>)
    requires Usable(c.health) && Invariant(c, s) && AllAllowed(steps)
    ensures IsRun(c, states, steps) && states[0] == s && states[|steps|] == Exec(c, s, steps)
    decreases |steps|
  {
    states := [s];
    if steps != [] {
      StepKeepsInvariant(c, s, steps[0]);
      var more := RunHasStates(c, Apply(c, s, steps[0]), steps[1..]);
      states := [s] + more;
      forall i | 0 <= i < |steps| ensures states[i + 1] == Apply(c, states[i], steps[i]) {
        if i > 0 { assert steps[i] == steps[1..][i - 1] && states[i] == more[i - 1]; }
      }
    }
  }

  function Count(flags: seq<bool>): nat {
    if flags == [] then 0 else Count(flags[..|flags| - 1]) + if flags[|flags| - 1] then 1 else 0
  }

  ghost function Consumed(c: Config, states: seq<Routing>, steps: seq<Step>): seq<bool>
    requires |states| == |steps| + 1
  {
    seq(|steps|, i requires 0 <= i < |steps| => Consumes(c, states[i], steps[i]))
  }

  ghost function Sampled(c: Config, states: seq<Routing>, steps: seq<Step>): seq<bool>
    requires |states| == |steps| + 1
  {
    seq(|steps|, i requires 0 <= i < |steps| => TriesQuarantined(c, states[i], steps[i]))
  }

  lemma StepCountsAttempt(c: Config, s: Routing, step: Step)
    requires Invariant(c, s)
    ensures Apply(c, s, step).attempts == if Consumes(c, s, step) then Bump(s.attempts) else s.attempts
    ensures TriesQuarantined(c, s, step) <==> Consumes(c, s, step) && Bump(s.attempts) % Interval(c) == 0
  {
    SampleSpec(c, s);
    match step {
      case Looked(hash) =>
        if Chooses(c, s, step) { StickMiss(c, s, hash); } else { StickHit(c, s, hash); }
      case _ =>
    }
  }

  lemma QuotientStep(a: nat, n: nat)
    requires n > 0
    ensures (a + 1) / n == a / n + if (a + 1) % n == 0 then 1 else 0
  {
    var d, r := a / n, a % n;
    assert a == n * d + r;
    if r == n - 1 {
      assert a + 1 == n * (d + 1) + 0;
      Words.QuotientIsUnique(a + 1, n, d + 1, 0);
    } else {
      Words.QuotientIsUnique(a + 1, n, d, r + 1);
    }
  }

  /** A counter and the marks it makes at multiples of n. */
  ghost predicate Counts(values: seq<nat>, consumed: seq<bool>, marked: seq<bool>, n: nat)
    requires n > 0
  {
    && |values| == |consumed| + 1 && |marked| == |consumed|
    && forall i {:trigger consumed[i]} | 0 <= i < |consumed| ::
         && values[i + 1] == (if consumed[i] then Bump(values[i]) else values[i])
         && (marked[i] <==> consumed[i] && Bump(values[i]) % n == 0)
  }

  lemma {:induction false} MarksAreMultiples(values: seq<nat>, consumed: seq<bool>, marked: seq<bool>,
                                             a: nat, m: nat, n: nat)
    requires n > 0 && Counts(values, consumed, marked, n)
    requires a == values[0] && m == Count(consumed) && a + m < UINT64
    ensures values[|consumed|] == a + m
    ensures Count(marked) == (a + m) / n - a / n
    decreases |consumed|
  {
    var k := |consumed|;
    if k > 0 {
      var last := consumed[k - 1];
      var m' := if last then m - 1 else m;
      MarksAreMultiples(values[..k], consumed[..k - 1], marked[..k - 1], a, m', n);
      assert values[..k][k - 1] == values[k - 1];
      QuotientStep(a + m', n);
    }
  }

  function Attempts(states: seq<Routing>): seq<nat> {
    seq(|states|, i requires 0 <= i < |states| => states[i].attempts)
  }

  lemma RunCounts(c: Config, states: seq<Routing>, steps: seq<Step>)
    requires IsRun(c, states, steps)
    ensures Counts(Attempts(states), Consumed(c, states, steps), Sampled(c, states, steps), Interval(c))
  {
    forall i | 0 <= i < |steps|
      ensures states[i + 1].attempts ==
              if Consumes(c, states[i], steps[i]) then Bump(states[i].attempts) else states[i].attempts
      ensures TriesQuarantined(c, states[i], steps[i]) <==>
              Consumes(c, states[i], steps[i]) && Bump(states[i].attempts) % Interval(c) == 0
    {
      StepCountsAttempt(c, states[i], steps[i]);
    }
  }

  ghost function ConsumedCount(c: Config, states: seq<Routing>, steps: seq<Step>): nat
    requires |states| == |steps| + 1
  {
    Count(Consumed(c, states, steps))
  }

  ghost function SampledCount(c: Config, states: seq<Routing>, steps: seq<Step>): nat
    requires |states| == |steps| + 1
  {
    Count(Sampled(c, states, steps))
  }

  /** Over any run, of the attempts consumed from count a to a + m exactly floor((a+m)/N) - floor(a/N) try a
      quarantined node, where N is the configured interval. */
  lemma SamplingRate(c: Config, states: seq<Routing>, steps: seq<Step>, a: nat, m: nat, n: nat)
    requires IsRun(c, states, steps)
    requires a == states[0].attempts && m == ConsumedCount(c, states, steps) && a + m < UINT64
    requires n == if c.interval == 0 then 1 else c.interval
    ensures states[|steps|].attempts == a + m && SampledCount(c, states, steps) == (a + m) / n - a / n
  {
    RunCounts(c, states, steps);
    MarksAreMultiples(Attempts(states), Consumed(c, states, steps), Sampled(c, states, steps), a, m, n);
  }

  // ----- Taking turns -----

  /** The elements of a list from a counter value on, cyclically. */
  ghost function Cycle(nodes: seq<Url>, from: nat, k: nat): (r: seq<Url>)
    requires nodes != []
  {
    seq(k, i requires 0 <= i < k => AtTurn(nodes, from + i))
  }

  /** m results, one after the other from a counter value on, and from the end on to the beginning. */
  ghost predicate GoesRound(r: seq<Url>, nodes: seq<Url>, from: nat, m: nat) {
    nodes != [] && |r| == m && forall i | 0 <= i < m :: r[i] == nodes[(from + i) % |nodes|]
  }

  lemma CycleGoesRound(nodes: seq<Url>, from: nat, m: nat)
    requires nodes != []
    ensures GoesRound(Cycle(nodes, from, m), nodes, from, m)
  {
    var r := Cycle(nodes, from, m);
    forall i | 0 <= i < m ensures r[i] == nodes[(from + i) % |nodes|] {
      assert r[i] == AtTurn(nodes, from + i);
    }
  }

  lemma RotationIndex(a: nat, i: nat, n: nat)
    requires 0 < n && i < n
    ensures (a + i) % n == if a % n + i < n then a % n + i else a % n + i - n
  {
    var d, r := a / n, a % n;
    assert a == n * d + r;
    if r + i < n {
      Words.QuotientIsUnique(a + i, n, d, r + i);
    } else {
      assert a + i == n * (d + 1) + (r + i - n);
      Words.QuotientIsUnique(a + i, n, d + 1, r + i - n);
    }
  }

  lemma FullTurn(nodes: seq<Url>, from: nat)
    requires nodes != []
    ensures multiset(Cycle(nodes, from, |nodes|)) == multiset(nodes)
  {
    var n := |nodes|;
    var r := from % n;
    var turned := nodes[r..] + nodes[..r];
    forall i | 0 <= i < n ensures Cycle(nodes, from, n)[i] == turned[i] {
      RotationIndex(from, i, n);
      assert Cycle(nodes, from, n)[i] == AtTurn(nodes, from + i);
    }
    assert Cycle(nodes, from, n) == turned;
    assert nodes == nodes[..r] + nodes[r..];
  }

  /** The turns from place i on, as many as there are nodes, take each node once. */
  ghost predicate IsFairRound(taken: seq<Url>, nodes: seq<Url>, i: nat)
    requires i + |nodes| <= |taken|
  {
    multiset(taken[i..i + |nodes|]) == multiset(nodes)
  }

  /** Any full round of consecutive turns takes each node once. */
  ghost predicate EveryRoundIsFair(taken: seq<Url>, nodes: seq<Url>) {
    forall i: nat | i + |nodes| <= |taken| :: IsFairRound(taken, nodes, i)
  }

  lemma CycleIsFair(nodes: seq<Url>, from: nat, m: nat)
    requires nodes != []
    ensures EveryRoundIsFair(Cycle(nodes, from, m), nodes)
  {
    var taken := Cycle(nodes, from, m);
    forall i: nat | i + |nodes| <= |taken| ensures IsFairRound(taken, nodes, i) {
      var round := taken[i..i + |nodes|];
      forall k | 0 <= k < |nodes| ensures round[k] == Cycle(nodes, from + i, |nodes|)[k] {
        assert round[k] == taken[i + k];
        assert from + (i + k) == (from + i) + k;
      }
      assert round == Cycle(nodes, from + i, |nodes|);
      FullTurn(nodes, from + i);
    }
  }

  /** The elements at the flagged places. */
  ghost function Selected(flags: seq<bool>, picks: seq<Url>): seq<Url>
    requires |flags| == |picks|
  {
    if flags == [] then []
    else
      var n := |flags| - 1;
      Selected(flags[..n], picks[..n]) + if flags[n] then [picks[n]] else []
  }

  /** A counter that moves at the flagged places, and what it points at there. */
  ghost predicate TakesTurns(values: seq<nat>, flags: seq<bool>, picks: seq<Url>, nodes: seq<Url>)
    requires nodes != []
  {
    && |values| == |flags| + 1 && |picks| == |flags|
    && forall i {:trigger flags[i]} | 0 <= i < |flags| ::
         && values[i + 1] == (if flags[i] then Bump(values[i]) else values[i])
         && (flags[i] ==> picks[i] == AtTurn(nodes, values[i]))
  }

  lemma {:induction false} TurnsCycle(values: seq<nat>, flags: seq<bool>, picks: seq<Url>, nodes: seq<Url>, m: nat)
    requires nodes != [] && TakesTurns(values, flags, picks, nodes)
    requires m == Count(flags) && values[0] + m < UINT64
    ensures values[|flags|] == values[0] + m && Selected(flags, picks) == Cycle(nodes, values[0], m)
    decreases |flags|
  {
    if flags != [] {
      var n := |flags| - 1;
      var m' := if flags[n] then m - 1 else m;
      assert forall i | 0 <= i < n :: flags[..n][i] == flags[i];
      TurnsCycle(values[..n + 1], flags[..n], picks[..n], nodes, m');
      assert values[..n + 1][n] == values[n];
      if flags[n] {
        assert Cycle(nodes, values[0], m) == Cycle(nodes, values[0], m') + [AtTurn(nodes, values[0] + m')];
      }
    }
  }

  /** Which steps of a run ask for the next node, and what each would return. */
  ghost function Routings(steps: seq<Step>): seq<bool> {
    seq(|steps|, i requires 0 <= i < |steps| => steps[i].Routed?)
  }

  ghost function Routes(c: Config, states: seq<Routing>, steps: seq<Step>): seq<Url>
    requires |states| == |steps| + 1
  {
    seq(|steps|, i requires 0 <= i < |steps| => Route(c, states[i]).0)
  }

  /** The results of the NextNode calls of a run, in order. */
  ghost function RoutedTo(c: Config, states: seq<Routing>, steps: seq<Step>): seq<Url>
    requires |states| == |steps| + 1
  {
    Selected(Routings(steps), Routes(c, states, steps))
  }

  function NextIndices(states: seq<Routing>): seq<nat> {
    seq(|states|, i requires 0 <= i < |states| => states[i].nextNode)
  }

  lemma StepTurnsNext(c: Config, s: Routing, step: Step)
    requires Invariant(c, s) && ActiveOf(c, s) != {} && QuarantineOf(c, s) == {} && !step.Known?
    ensures Apply(c, s, step).nextNode == if step.Routed? then Bump(s.nextNode) else s.nextNode
    ensures Route(c, s).0 == AtTurn(ActiveNodes(c, s), s.nextNode)
  {
    SampleSpec(c, s);
    if step.Looked? {
      StickSpec(c, s, step.hash);
    }
  }

  lemma RoutingsTakeTurns(c: Config, states: seq<Routing>, steps: seq<Step>, active: set<Url>)
    requires IsRun(c, states, steps) && active != {}
    requires forall i | 0 <= i < |states| :: ActiveOf(c, states[i]) == active && QuarantineOf(c, states[i]) == {}
    requires forall i | 0 <= i < |steps| :: !steps[i].Known?
    ensures TakesTurns(NextIndices(states), Routings(steps), Routes(c, states, steps), InOrder(active))
  {
    forall i | 0 <= i < |steps|
      ensures states[i + 1].nextNode == if steps[i].Routed? then Bump(states[i].nextNode) else states[i].nextNode
      ensures Route(c, states[i]).0 == AtTurn(InOrder(active), states[i].nextNode)
    {
      assert ActiveOf(c, states[i]) == active && QuarantineOf(c, states[i]) == {};
      StepTurnsNext(c, states[i], steps[i]);
    }
  }

  /** Over any run in which the active nodes stay the same, none is quarantined and NextKnownNode is not
      called, whatever else happens in between, the NextNode calls go round the sorted active nodes, so any
      k consecutive ones return each of the k nodes once. */
  lemma RoundRobin(c: Config, states: seq<Routing>, steps: seq<Step>, active: set<Url>, m: nat)
    requires IsRun(c, states, steps) && active != {}
    requires forall i | 0 <= i < |states| :: ActiveOf(c, states[i]) == active && QuarantineOf(c, states[i]) == {}
    requires forall i | 0 <= i < |steps| :: !steps[i].Known?
    requires m == Count(Routings(steps)) && states[0].nextNode + m < UINT64
    ensures RoutedTo(c, states, steps) == Cycle(InOrder(active), states[0].nextNode, m)
    ensures GoesRound(RoutedTo(c, states, steps), InOrder(active), states[0].nextNode, m)
    ensures EveryRoundIsFair(RoutedTo(c, states, steps), InOrder(active))
  {
    RoutingsTakeTurns(c, states, steps, active);
    TurnsCycle(NextIndices(states), Routings(steps), Routes(c, states, steps), InOrder(active), m);
    CycleGoesRound(InOrder(active), states[0].nextNode, m);
    CycleIsFair(InOrder(active), states[0].nextNode, m);
  }

  /** Which steps of a run ask for a known node, and what each would return. */
  ghost function KnownAsked(steps: seq<Step>): seq<bool> {
    seq(|steps|, i requires 0 <= i < |steps| => steps[i].Known?)
  }

  ghost function KnownNodes(states: seq<Routing>, steps: seq<Step>): seq<Url>
    requires |states| == |steps| + 1
  {
    seq(|steps|, i requires 0 <= i < |steps| => KnownNode(states[i]).0)
  }

  lemma StepTurnsKnown(c: Config, s: Routing, step: Step)
    requires Invariant(c, s) && !step.Routed?
    ensures Apply(c, s, step).nextNode == if step.Known? then Bump(s.nextNode) else s.nextNode
    ensures s.live != [] && KnownNode(s).0 == AtTurn(s.live, s.nextNode)
  {
    SampleSpec(c, s);
    if step.Looked? {
      StickSpec(c, s, step.hash);
    }
  }

  lemma KnownTakeTurns(c: Config, states: seq<Routing>, steps: seq<Step>, live: seq<Url>)
    requires IsRun(c, states, steps) && live != []
    requires forall i | 0 <= i < |states| :: states[i].live == live
    requires forall i | 0 <= i < |steps| :: !steps[i].Routed?
    ensures TakesTurns(NextIndices(states), KnownAsked(steps), KnownNodes(states, steps), live)
  {
    forall i | 0 <= i < |steps|
      ensures states[i + 1].nextNode == if steps[i].Known? then Bump(states[i].nextNode) else states[i].nextNode
      ensures KnownNode(states[i]).0 == AtTurn(live, states[i].nextNode)
    {
      assert states[i].live == live;
      StepTurnsKnown(c, states[i], steps[i]);
    }
  }

  /** Over any run without NextNode in which the node list stays the same, whatever the nodes' health, the
      NextKnownNode calls go round the list. */
  lemma KnownRoundRobin(c: Config, states: seq<Routing>, steps: seq<Step>, live: seq<Url>, m: nat)
    requires IsRun(c, states, steps) && live != []
    requires forall i | 0 <= i < |states| :: states[i].live == live
    requires forall i | 0 <= i < |steps| :: !steps[i].Routed?
    requires m == Count(KnownAsked(steps)) && states[0].nextNode + m < UINT64
    ensures var r := Selected(KnownAsked(steps), KnownNodes(states, steps));
            GoesRound(r, live, states[0].nextNode, m) && EveryRoundIsFair(r, live)
  {
    KnownTakeTurns(c, states, steps, live);
    TurnsCycle(NextIndices(states), KnownAsked(steps), KnownNodes(states, steps), live, m);
    CycleGoesRound(live, states[0].nextNode, m);
    CycleIsFair(live, states[0].nextNode, m);
  }

  /** Which steps of a run take a quarantined node, and what a sample would take. */
  ghost function Takings(c: Config, states: seq<Routing>, steps: seq<Step>): seq<bool>
    requires |states| == |steps| + 1
  {
    seq(|steps|, i requires 0 <= i < |steps| => Takes(c, states[i], steps[i]))
  }

  ghost function SampleNodes(c: Config, states: seq<Routing>, steps: seq<Step>): seq<Url>
    requires |states| == |steps| + 1
  {
    seq(|steps|, i requires 0 <= i < |steps| => Sample(c, states[i]).0)
  }

  /** The quarantined nodes that the steps of a run take, in order. */
  ghost function Taken(c: Config, states: seq<Routing>, steps: seq<Step>): seq<Url>
    requires |states| == |steps| + 1
  {
    Selected(Takings(c, states, steps), SampleNodes(c, states, steps))
  }

  function Turns(states: seq<Routing>): seq<nat> {
    seq(|states|, i requires 0 <= i < |states| => states[i].turn)
  }

  lemma StepTakesTurn(c: Config, s: Routing, step: Step)
    requires Invariant(c, s) && QuarantineOf(c, s) != {}
    ensures Apply(c, s, step).turn == if Takes(c, s, step) then Bump(s.turn) else s.turn
    ensures Takes(c, s, step) ==> Sample(c, s).0 == AtTurn(QuarantinedNodes(c, s), s.turn)
  {
    SampleTurn(c, s);
    SampleSpec(c, s);
    match step {
      case Looked(hash) =>
        if Chooses(c, s, step) { StickMiss(c, s, hash); } else { StickHit(c, s, hash); }
      case _ =>
    }
  }

  lemma SamplesTakeTurns(c: Config, states: seq<Routing>, steps: seq<Step>, quarantined: set<Url>)
    requires IsRun(c, states, steps) && quarantined != {}
    requires forall i | 0 <= i < |states| :: QuarantineOf(c, states[i]) == quarantined
    ensures TakesTurns(Turns(states), Takings(c, states, steps), SampleNodes(c, states, steps), InOrder(quarantined))
  {
    forall i | 0 <= i < |steps|
      ensures states[i + 1].turn == if Takes(c, states[i], steps[i]) then Bump(states[i].turn) else states[i].turn
      ensures Takes(c, states[i], steps[i]) ==> Sample(c, states[i]).0 == AtTurn(InOrder(quarantined), states[i].turn)
    {
      assert QuarantineOf(c, states[i]) == quarantined;
      StepTakesTurn(c, states[i], steps[i]);
    }
  }

  /** Over any run in which the same nodes stay quarantined, whatever else happens in between, the samples
      go round them, so any k consecutive samples take each of the k nodes once. */
  lemma QuarantinedNodesTakeTurns(c: Config, states: seq<Routing>, steps: seq<Step>, quarantined: set<Url>, m: nat)
    requires IsRun(c, states, steps) && quarantined != {}
    requires forall i | 0 <= i < |states| :: QuarantineOf(c, states[i]) == quarantined
    requires m == Count(Takings(c, states, steps)) && states[0].turn + m < UINT64
    ensures Taken(c, states, steps) == Cycle(InOrder(quarantined), states[0].turn, m)
    ensures GoesRound(Taken(c, states, steps), InOrder(quarantined), states[0].turn, m)
    ensures EveryRoundIsFair(Taken(c, states, steps), InOrder(quarantined))
  {
    SamplesTakeTurns(c, states, steps, quarantined);
    TurnsCycle(Turns(states), Takings(c, states, steps), SampleNodes(c, states, steps), InOrder(quarantined), m);
    CycleGoesRound(InOrder(quarantined), states[0].turn, m);
    CycleIsFair(InOrder(quarantined), states[0].turn, m);
  }
}
