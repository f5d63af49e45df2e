/** Node discovery (src/live_nodes.cpp: GetNodesForScope, FetchLiveNodes, UpdateLiveNodes): a refresh
    as a sequence of elementary routing steps. The HTTP client and the clock are an environment. */
module Discovery {
  import opened Urls
  import opened NodeLists
  import opened NodeHealth
  import opened QueryPlans
  import opened LiveNodes
  import LocalNodesJson
  import RoutingTheorems

  /** What a request got: a response, or an exception. */
  datatype Reply = Response(status: int, body: string) | NoResponse

  /** The client's replies to `/localnodes` for scope k at a node, and to probes; the seeds of the
      discovery plans, which the library takes from the clock. */
  datatype Environment = Environment(fetch: (nat, Url) -> Reply, probe: Url -> Reply, seed: nat -> int)

  /** The scopes are the configured one and its fallbacks, in order; true marks cluster scope. */
  datatype Settings = Settings(initial: seq<Url>, scheme: string, port: Port, scopes: seq<bool>)

  // ----- One reply -----

  function ProbeResult(r: Reply): Observation {
    match r
    case NoResponse => ConnectionFailure
    case Response(status, _) => if status >= 500 then ServerError else Success
  }

  datatype Answer = Nodes(nodes: seq<Url>) | StatusError(status: int) | Malformed | Unreachable

  function ToUrls(d: Settings, hosts: seq<string>): seq<Url> {
    SortAndDedupeNodes(seq(|hosts|, i requires 0 <= i < |hosts| => Url(d.scheme, hosts[i], d.port, "", "")))
  }

  /** GetNodesFromEndpoint and the exceptions it throws. */
  function Interpret(d: Settings, r: Reply): Answer {
    match r
    case NoResponse => Unreachable
    case Response(status, body) =>
      if status != 200 then StatusError(status)
      else
        match LocalNodesJson.Parse(body)
        case None => Malformed
        case Some(hosts) => Nodes(ToUrls(d, hosts))
  }

  function Blame(a: Answer): Observation
    requires !a.Nodes?
  {
    match a
    case StatusError(status) => if status >= 500 then ServerError else Success
    case Malformed => Success
    case Unreachable => ConnectionFailure
  }

  /** The node answered, and not with a server error. */
  predicate Responds(r: Reply) {
    r.Response? && r.status < 500
  }

  /** A reply is a list of nodes exactly if its status is 200 and its body is an array of strings; the nodes are then
      exactly those of the hosts named, with the scheme and the port of the client. */
  lemma ReplyNamesNodes(d: Settings, r: Reply)
    ensures Interpret(d, r).Nodes? <==> r.Response? && r.status == 200 && LocalNodesJson.Parse(r.body).Some?
    ensures Interpret(d, r).Nodes? ==>
            forall u :: u in Interpret(d, r).nodes <==>
                        exists h :: h in LocalNodesJson.Parse(r.body).value && u == Url(d.scheme, h, d.port, "", "")
  {
    if Interpret(d, r).Nodes? {
      HostsBecomeNodes(d, LocalNodesJson.Parse(r.body).value);
    }
  }

  lemma HostsBecomeNodes(d: Settings, hosts: seq<string>)
    ensures forall u :: u in ToUrls(d, hosts) <==> exists h :: h in hosts && u == Url(d.scheme, h, d.port, "", "")
  {
    var raw := seq(|hosts|, i requires 0 <= i < |hosts| => Url(d.scheme, hosts[i], d.port, "", ""));
    SortAndDedupeIsStrict(raw);
    assert Members(ToUrls(d, hosts)) == Members(raw);
    forall u ensures u in ToUrls(d, hosts) <==> exists h :: h in hosts && u == Url(d.scheme, h, d.port, "", "") {
      assert u in ToUrls(d, hosts) <==> u in Members(raw);
      if h :| h in hosts && u == Url(d.scheme, h, d.port, "", "") {
        var i :| 0 <= i < |hosts| && hosts[i] == h;
        assert raw[i] == u;
      }
      if u in raw {
        var i :| 0 <= i < |raw| && raw[i] == u;
        assert hosts[i] in hosts;
      }
    }
  }

  /** What a failing node is blamed for: no reply at all takes it Down, a status of 500 or more counts as one server
      error, and any other failure counts as a success. */
  lemma BlameCounts(c: Config, s: Routing, d: Settings, u: Url, r: Reply)
    requires !Interpret(d, r).Nodes? && u in s.statuses && !c.health.disabled
    ensures var before, after := s.statuses[u], Observe(c, s, u, Blame(Interpret(d, r))).statuses;
            && u in after
            && (r.NoResponse? ==> after[u].state == Down)
            && (r.Response? && r.status >= 500 ==>
                after[u].errors == Increment(UINT32, before.errors)
                && after[u].state == if after[u].errors >= c.health.errorThreshold then Down else before.state)
            && (Responds(r) ==> after[u].errors == 0 && (before.state == Down ==> after[u].state == Quarantined)
                                && (before.state == Active ==> after[u].state == Active))
  {
  }

  // ----- One scope -----

  datatype Outcome = Found(nodes: seq<Url>) | Threw
  datatype Visit = Visit(outcome: Outcome, steps: seq<Step>)

  /** The loop over the nodes of a discovery plan. Outside cluster scope the first non-empty list wins;
      in cluster scope all lists are merged. */
  function VisitNodes(ask: Url -> Answer, cluster: bool, order: seq<Url>, discovered: seq<Url>, failed: bool): Visit
    decreases |order|
  {
    if order == [] then
      Visit(if discovered != [] then Found(SortAndDedupeNodes(discovered)) else if failed then Threw else Found([]), [])
    else
      var u, rest := order[0], order[1..];
      match ask(u)
      case Nodes(nodes) =>
        if nodes == [] then VisitNodes(ask, cluster, rest, discovered, failed)
        else if !cluster then Visit(Found(nodes), [])
        else VisitNodes(ask, cluster, rest, discovered + nodes, failed)
      case answer =>
        var v := VisitNodes(ask, cluster, rest, discovered, true);
        v.(steps := [Observed(u, Blame(answer))] + v.steps)
  }

  /** What the nodes answer for scope k. */
  function Asking(d: Settings, env: Environment, k: nat): Url -> Answer {
    u => Interpret(d, env.fetch(k, u))
  }

  /** The observations that failing nodes earn, in order. */
  function Blames(ask: Url -> Answer, order: seq<Url>): seq<Step> {
    if order == [] then []
    else (if ask(order[0]).Nodes? then [] else [Observed(order[0], Blame(ask(order[0])))]) + Blames(ask, order[1..])
  }

  /** All lists that were answered, one after the other. */
  function AnsweredNodes(ask: Url -> Answer, order: seq<Url>): seq<Url> {
    if order == [] then []
    else (if ask(order[0]).Nodes? then ask(order[0]).nodes else []) + AnsweredNodes(ask, order[1..])
  }

  function Conclusion(found: seq<Url>, failed: bool): Outcome {
    if found != [] then Found(SortAndDedupeNodes(found)) else if failed then Threw else Found([])
  }

  /** In cluster scope every node is asked, all lists are merged, and exactly the failing nodes are blamed. */
  lemma {:induction false} ClusterVisitAsksEveryone(ask: Url -> Answer, order: seq<Url>, discovered: seq<Url>,
                                                    failed: bool)
    ensures VisitNodes(ask, true, order, discovered, failed) ==
            Visit(Conclusion(discovered + AnsweredNodes(ask, order), failed || Blames(ask, order) != []),
                  Blames(ask, order))
    decreases |order|
  {
    if order == [] {
      assert discovered + [] == discovered;
    } else {
      var a, rest := ask(order[0]), order[1..];
      if a.Nodes? {
        ClusterVisitAsksEveryone(ask, rest, discovered + a.nodes, failed);
        assert (discovered + a.nodes) + AnsweredNodes(ask, rest) == discovered + (a.nodes + AnsweredNodes(ask, rest));
        assert a.nodes == [] ==> discovered + a.nodes == discovered;
        assert [] + Blames(ask, rest) == Blames(ask, rest);
      } else {
        ClusterVisitAsksEveryone(ask, rest, discovered, true);
        assert [] + AnsweredNodes(ask, rest) == AnsweredNodes(ask, rest);
      }
    }
  }

  predicate AnswersNodes(a: Answer) {
    a.Nodes? && a.nodes != []
  }

  /** Outside cluster scope the first non-empty list is taken as it is, and exactly the nodes that failed
      before it are blamed; without one the visit fails exactly if some node failed. */
  lemma {:induction false} ScopedVisitTakesTheFirst(ask: Url -> Answer, order: seq<Url>, i: nat, failed: bool)
    requires i <= |order| && (forall j | 0 <= j < i :: !AnswersNodes(ask(order[j])))
    requires i < |order| ==> AnswersNodes(ask(order[i]))
    ensures VisitNodes(ask, false, order, [], failed) ==
            if i < |order| then Visit(Found(ask(order[i]).nodes), Blames(ask, order[..i]))
            else Visit(if failed || Blames(ask, order) != [] then Threw else Found([]), Blames(ask, order))
    decreases |order|
  {
    if i > 0 {
      var a, rest := ask(order[0]), order[1..];
      assert !AnswersNodes(a);
      assert forall j | 0 <= j < i - 1 :: rest[j] == order[j + 1];
      ScopedVisitTakesTheFirst(ask, rest, i - 1, failed || !a.Nodes?);
      assert order[..i][1..] == rest[..i - 1];
      assert order[..i][0] == order[0];
      assert [] + Blames(ask, rest) == Blames(ask, rest);
      assert [] + Blames(ask, rest[..i - 1]) == Blames(ask, rest[..i - 1]);
    }
  }

  /** What comes out of asking all nodes: some list if any node named one; otherwise an exception if any
      node failed; otherwise, when every node answered with the empty list, nothing. */
  lemma {:induction false} VisitOutcome(ask: Url -> Answer, cluster: bool, order: seq<Url>, discovered: seq<Url>,
                                        failed: bool)
    ensures var r := VisitNodes(ask, cluster, order, discovered, failed).outcome;
            && (r == Found([]) <==> discovered == [] && !failed && forall u | u in order :: ask(u) == Nodes([]))
            && (r == Threw <==> discovered == [] && (failed || exists u | u in order :: !ask(u).Nodes?)
                                && forall u | u in order :: !AnswersNodes(ask(u)))
    decreases |order|
  {
    if order == [] {
      SortAndDedupeIsStrict(discovered);
      if discovered != [] { assert discovered[0] in Members(SortAndDedupeNodes(discovered)); }
    } else {
      var a, rest := ask(order[0]), order[1..];
      assert order == [order[0]] + rest;
      if a.Nodes? {
        VisitOutcome(ask, cluster, rest, discovered + a.nodes, failed);
        assert a.nodes == [] ==> discovered + a.nodes == discovered;
      } else {
        VisitOutcome(ask, cluster, rest, discovered, true);
      }
    }
  }

  lemma {:induction false} AnsweredMembers(ask: Url -> Answer, order: seq<Url>, u: Url)
    ensures u in AnsweredNodes(ask, order) <==> exists v :: v in order && ask(v).Nodes? && u in ask(v).nodes
  {
    if order != [] {
      AnsweredMembers(ask, order[1..], u);
      assert order == [order[0]] + order[1..];
      assert order[0] in order;
    }
  }

  /** What cluster discovery finds does not depend on the random order of its plan. */
  lemma ClusterDiscoveryIgnoresOrder(ask: Url -> Answer, a: seq<Url>, b: seq<Url>)
    requires Members(a) == Members(b) && Truthful(ask)
    ensures Members(AnsweredNodes(ask, a)) == Members(AnsweredNodes(ask, b))
    ensures AllWellFormed(Members(AnsweredNodes(ask, a)))
    ensures SortAndDedupeNodes(AnsweredNodes(ask, a)) == SortAndDedupeNodes(AnsweredNodes(ask, b))
  {
    forall u ensures u in AnsweredNodes(ask, a) <==> u in AnsweredNodes(ask, b) {
      AnsweredMembers(ask, a, u);
      AnsweredMembers(ask, b, u);
      assert forall v :: (v in a <==> v in Members(a)) && (v in b <==> v in Members(b));
    }
    forall u | u in Members(AnsweredNodes(ask, a)) ensures u.WellFormed() {
      AnsweredMembers(ask, a, u);
      var v :| v in a && ask(v).Nodes? && u in ask(v).nodes;
      assert u in Members(ask(v).nodes);
    }
    WellFormedTextIdentifies(Members(AnsweredNodes(ask, a)));
    SortAndDedupeDependsOnMembers(AnsweredNodes(ask, a), AnsweredNodes(ask, b));
  }

  /** The hosts of a reply give well-formed nodes exactly if each is non-empty and free of delimiters. */
  lemma WellFormedHosts(d: Settings, hosts: seq<string>)
    requires ':' !in d.scheme
    ensures AllWellFormed(Members(ToUrls(d, hosts))) <==> forall h | h in hosts :: h != "" && Avoids(h, HOST_DELIMITERS)
  {
    var raw := seq(|hosts|, i requires 0 <= i < |hosts| => Url(d.scheme, hosts[i], d.port, "", ""));
    SortAndDedupeIsStrict(raw);
    assert forall i | 0 <= i < |hosts| :: raw[i] in Members(raw) && hosts[i] in hosts;
    assert forall u | u in Members(raw) :: u in raw;
  }

  /** An empty host passes the parser and becomes a node that counts as no node. */
  lemma EmptyHostsPass(d: Settings)
    ensures var r := Response(200, LocalNodesJson.Print([""]));
            Interpret(d, r) == Nodes([Url(d.scheme, "", d.port, "", "")]) && Url(d.scheme, "", d.port, "", "").Empty()
  {
    LocalNodesJson.ParseUndoesPrint([""]);
    OneHost(d, "");
  }

  /** The discovery plan of a scope: the initial nodes, or the nodes of a query plan, in random order. */
  ghost function DiscoveryOrder(c: Config, d: Settings, env: Environment, s: Routing, k: nat): seq<Url>
    requires k < |d.scopes|
  {
    Drain(c.pick, WithSeed(if d.scopes[k] then d.initial else PlanNodes(c, s).0, env.seed(k)))
  }

  /** GetNodesForScope. */
  ghost function VisitScope(c: Config, d: Settings, env: Environment, s: Routing, k: nat): Visit
    requires k < |d.scopes|
  {
    var v := VisitNodes(Asking(d, env, k), d.scopes[k], DiscoveryOrder(c, d, env, s, k), [], false);
    if d.scopes[k] then v else v.(steps := [Planned] + v.steps)
  }

  /** Every node answers with well-formed nodes only. */
  ghost predicate Truthful(ask: Url -> Answer) {
    forall u: Url :: ask(u).Nodes? ==> AllWellFormed(Members(ask(u).nodes))
  }

  ghost predicate HasWellFormed(outcome: Outcome) {
    outcome.Found? ==> AllWellFormed(Members(outcome.nodes))
  }

  lemma {:induction false} VisitFindsWellFormed(ask: Url -> Answer, cluster: bool, order: seq<Url>,
                                                discovered: seq<Url>, failed: bool)
    requires Truthful(ask) && AllWellFormed(Members(discovered))
    ensures HasWellFormed(VisitNodes(ask, cluster, order, discovered, failed).outcome)
    decreases |order|
  {
    if order == [] {
      SortAndDedupeIsStrict(discovered);
    } else {
      var u, rest := order[0], order[1..];
      match ask(u) {
        case Nodes(nodes) =>
          assert Members(discovered + nodes) == Members(discovered) + Members(nodes);
          VisitFindsWellFormed(ask, cluster, rest, discovered, failed);
          VisitFindsWellFormed(ask, cluster, rest, discovered + nodes, failed);
        case _ =>
          VisitFindsWellFormed(ask, cluster, rest, discovered, true);
      }
    }
  }

  /** Only observations about well-formed nodes. */
  ghost predicate AllObserved(steps: seq<Step>) {
    forall i | 0 <= i < |steps| :: steps[i].Observed? && Allowed(steps[i])
  }

  /** Whatever the answers, a visit only reports observations about the nodes it asks. */
  lemma {:induction false} VisitIsAllowed(ask: Url -> Answer, cluster: bool, order: seq<Url>, discovered: seq<Url>,
                                          failed: bool)
    requires AllWellFormed(Members(order))
    ensures AllObserved(VisitNodes(ask, cluster, order, discovered, failed).steps)
    decreases |order|
  {
    if order != [] {
      var u, rest := order[0], order[1..];
      assert u in Members(order) && Members(rest) <= Members(order);
      match ask(u) {
        case Nodes(nodes) =>
          if nodes == [] {
            VisitIsAllowed(ask, cluster, rest, discovered, failed);
          } else if cluster {
            VisitIsAllowed(ask, cluster, rest, discovered + nodes, failed);
          } else {
            assert VisitNodes(ask, cluster, order, discovered, failed).steps == [];
          }
        case _ =>
          VisitIsAllowed(ask, cluster, rest, discovered, true);
      }
    }
  }

  /** A step that leaves the membership alone. */
  predicate KeepsMembership(step: Step) {
    !step.Installing?
  }

  ghost predicate Harmless(steps: seq<Step>) {
    AllAllowed(steps) && forall i | 0 <= i < |steps| :: KeepsMembership(steps[i])
  }

  lemma OrderIsWellFormed(c: Config, d: Settings, env: Environment, s: Routing, k: nat)
    requires Invariant(c, s) && AllWellFormed(Members(d.initial)) && k < |d.scopes|
    ensures AllWellFormed(Members(DiscoveryOrder(c, d, env, s, k)))
  {
    var nodes := if d.scopes[k] then d.initial else PlanNodes(c, s).0;
    assert AllWellFormed(Members(nodes)) by { PlanNodesMembers(c, s); }
    var order := DiscoveryOrder(c, d, env, s, k);
    DrainIsPermutation(c.pick, WithSeed(nodes, env.seed(k)));
    forall u | u in Members(order) ensures u in Members(nodes) {
      assert u in multiset(order);
      assert u in multiset(nodes);
    }
  }

  lemma PlanNodesMembers(c: Config, s: Routing)
    requires Invariant(c, s)
    ensures Members(PlanNodes(c, s).0) <= s.statuses.Keys
  {
    SampleSpec(c, s);
    var (q, s1) := Sample(c, s);
    var raw := ActiveNodes(c, s1) + if q.Empty() then [] else [q];
    SortAndDedupeIsStrict(raw);
    forall u | u in raw ensures u in s.statuses {
      assert u in ActiveNodes(c, s1) ==> u in Members(ActiveNodes(c, s1));
    }
  }

  lemma ObservationsAreHarmless(steps: seq<Step>, planned: bool)
    requires AllObserved(steps)
    ensures Harmless(if planned then [Planned] + steps else steps)
  {
  }

  lemma ScopeIsHarmless(c: Config, d: Settings, env: Environment, s: Routing, k: nat)
    requires Invariant(c, s) && AllWellFormed(Members(d.initial)) && k < |d.scopes|
    ensures Harmless(VisitScope(c, d, env, s, k).steps)
  {
    OrderIsWellFormed(c, d, env, s, k);
    StepsOfVisit(c, d, env, s, k, DiscoveryOrder(c, d, env, s, k));
  }

  lemma StepsOfVisit(c: Config, d: Settings, env: Environment, s: Routing, k: nat, order: seq<Url>)
    requires k < |d.scopes| && order == DiscoveryOrder(c, d, env, s, k) && AllWellFormed(Members(order))
    ensures Harmless(VisitScope(c, d, env, s, k).steps)
  {
    var v := VisitNodes(Asking(d, env, k), d.scopes[k], order, [], false);
    VisitIsAllowed(Asking(d, env, k), d.scopes[k], order, [], false);
    ObservationsAreHarmless(v.steps, !d.scopes[k]);
    assert VisitScope(c, d, env, s, k).steps == if !d.scopes[k] then [Planned] + v.steps else v.steps;
  }

  lemma ScopeKeepsInvariant(c: Config, d: Settings, env: Environment, s: Routing, k: nat)
    requires Usable(c.health) && Invariant(c, s) && AllWellFormed(Members(d.initial)) && k < |d.scopes|
    ensures Harmless(VisitScope(c, d, env, s, k).steps)
    ensures Invariant(c, Exec(c, s, VisitScope(c, d, env, s, k).steps))
  {
    ScopeIsHarmless(c, d, env, s, k);
    ExecKeepsInvariant(c, s, VisitScope(c, d, env, s, k).steps);
  }

  // ----- A refresh -----

  /** FetchLiveNodes from scope k on: an empty result falls back, an exception does not. */
  ghost function Fetch(c: Config, d: Settings, env: Environment, s: Routing, k: nat): (v: Visit)
    requires k <= |d.scopes|
    decreases |d.scopes| - k
  {
    if k == |d.scopes| then Visit(Found([]), [])
    else
      var v := VisitScope(c, d, env, s, k);
      if v.outcome != Found([]) then v
      else
        var w := Fetch(c, d, env, Exec(c, s, v.steps), k + 1);
        w.(steps := v.steps + w.steps)
  }

  lemma HarmlessAppend(a: seq<Step>, b: seq<Step>)
    requires Harmless(a) && Harmless(b)
    ensures Harmless(a + b)
  {
    var steps := a + b;
    forall i | 0 <= i < |steps| ensures Allowed(steps[i]) && KeepsMembership(steps[i]) {
      assert steps[i] == if i < |a| then a[i] else b[i - |a|];
    }
  }

  /** What the scopes do, in states that satisfy the invariant, and what a fetch does with it. */
  ghost predicate HarmlessAlong(c: Config, n: nat, own: (Routing, nat) -> seq<Step>, after: (Routing, nat) -> Routing,
                                whole: (Routing, nat) -> seq<Step>)
  {
    && (forall s: Routing :: whole(s, n) == [])
    && forall s: Routing, k: nat | k < n && Invariant(c, s) ::
         && Harmless(own(s, k)) && Invariant(c, after(s, k))
         && OneOrBoth(whole(s, k), own(s, k), whole(after(s, k), k + 1))
  }

  lemma {:induction false} WholeIsHarmless(c: Config, n: nat, own: (Routing, nat) -> seq<Step>,
                                           after: (Routing, nat) -> Routing, whole: (Routing, nat) -> seq<Step>,
                                           s: Routing, k: nat)
    requires HarmlessAlong(c, n, own, after, whole) && k <= n && Invariant(c, s)
    ensures Harmless(whole(s, k))
    decreases n - k
  {
    if k < n {
      assert Harmless(own(s, k)) && OneOrBoth(whole(s, k), own(s, k), whole(after(s, k), k + 1));
      WholeIsHarmless(c, n, own, after, whole, after(s, k), k + 1);
      HarmlessAppend(own(s, k), whole(after(s, k), k + 1));
    }
  }

  ghost function OwnSteps(c: Config, d: Settings, env: Environment): (Routing, nat) -> seq<Step> {
    (s, k: nat) => if k < |d.scopes| then VisitScope(c, d, env, s, k).steps else []
  }

  ghost function FetchSteps(c: Config, d: Settings, env: Environment): (Routing, nat) -> seq<Step> {
    (s, k: nat) => if k <= |d.scopes| then Fetch(c, d, env, s, k).steps else []
  }

  lemma StepsFromScope(c: Config, d: Settings, env: Environment, s: Routing, k: nat, t: Routing)
    requires k < |d.scopes| && t == Exec(c, s, VisitScope(c, d, env, s, k).steps)
    ensures OneOrBoth(Fetch(c, d, env, s, k).steps, VisitScope(c, d, env, s, k).steps, Fetch(c, d, env, t, k + 1).steps)
  {
  }

  /** The steps of one scope, alone or followed by later ones. */
  ghost predicate OneOrBoth(whole: seq<Step>, own: seq<Step>, later: seq<Step>) {
    whole == own || whole == own + later
  }

  lemma StepsOfFetch(c: Config, d: Settings, env: Environment, s: Routing, k: nat)
    requires k < |d.scopes|
    ensures OneOrBoth(FetchSteps(c, d, env)(s, k), OwnSteps(c, d, env)(s, k),
                      FetchSteps(c, d, env)(StatesAfter(c, d, env)(s, k), k + 1))
  {
    StepsFromScope(c, d, env, s, k, Exec(c, s, VisitScope(c, d, env, s, k).steps));
  }

  lemma ScopesAreHarmless(c: Config, d: Settings, env: Environment)
    requires Usable(c.health) && AllWellFormed(Members(d.initial))
    ensures HarmlessAlong(c, |d.scopes|, OwnSteps(c, d, env), StatesAfter(c, d, env), FetchSteps(c, d, env))
  {
    forall s: Routing, k: nat | k < |d.scopes| && Invariant(c, s)
      ensures Harmless(OwnSteps(c, d, env)(s, k)) && Invariant(c, StatesAfter(c, d, env)(s, k))
      ensures OneOrBoth(FetchSteps(c, d, env)(s, k), OwnSteps(c, d, env)(s, k),
                        FetchSteps(c, d, env)(StatesAfter(c, d, env)(s, k), k + 1))
    {
      ScopeKeepsInvariant(c, d, env, s, k);
      StepsOfFetch(c, d, env, s, k);
    }
  }

  /** Whatever the environment replies, a fetch does not touch the membership. */
  lemma FetchIsHarmless(c: Config, d: Settings, env: Environment, s: Routing, k: nat)
    requires Usable(c.health) && Invariant(c, s) && AllWellFormed(Members(d.initial)) && k <= |d.scopes|
    ensures Harmless(Fetch(c, d, env, s, k).steps)
  {
    ScopesAreHarmless(c, d, env);
    WholeIsHarmless(c, |d.scopes|, OwnSteps(c, d, env), StatesAfter(c, d, env), FetchSteps(c, d, env), s, k);
    assert FetchSteps(c, d, env)(s, k) == Fetch(c, d, env, s, k).steps;
  }

  /** What the refresh installs is well-formed. */
  ghost predicate FindsWellFormed(c: Config, d: Settings, env: Environment, s: Routing) {
    HasWellFormed(Fetch(c, d, env, s, 0).outcome)
  }

  ghost predicate FoundAlong(n: nat, own: (Routing, nat) -> Outcome, after: (Routing, nat) -> Routing,
                             outcome: (Routing, nat) -> Outcome)
  {
    && (forall s: Routing :: outcome(s, n) == Found([]))
    && forall s: Routing, k: nat | k < n ::
         HasWellFormed(own(s, k)) && GoesOnIfEmpty(own(s, k), outcome(s, k), outcome(after(s, k), k + 1))
  }

  predicate GoesOnIfEmpty(own: Outcome, outcome: Outcome, later: Outcome) {
    outcome == if own != Found([]) then own else later
  }

  lemma {:induction false} WellFormedAlong(n: nat, own: (Routing, nat) -> Outcome, after: (Routing, nat) -> Routing,
                                           outcome: (Routing, nat) -> Outcome, s: Routing, k: nat)
    requires FoundAlong(n, own, after, outcome) && k <= n
    ensures HasWellFormed(outcome(s, k))
    decreases n - k
  {
    if k < n {
      assert HasWellFormed(own(s, k)) && GoesOnIfEmpty(own(s, k), outcome(s, k), outcome(after(s, k), k + 1));
      WellFormedAlong(n, own, after, outcome, after(s, k), k + 1);
    }
  }

  ghost function OwnOutcomes(c: Config, d: Settings, env: Environment): (Routing, nat) -> Outcome {
    (s, k: nat) => if k < |d.scopes| then VisitScope(c, d, env, s, k).outcome else Threw
  }

  ghost function StatesAfter(c: Config, d: Settings, env: Environment): (Routing, nat) -> Routing {
    (s, k: nat) => if k < |d.scopes| then Exec(c, s, VisitScope(c, d, env, s, k).steps) else s
  }

  lemma ScopeFinds(c: Config, d: Settings, env: Environment, s: Routing, k: nat)
    requires k < |d.scopes| && Truthful(Asking(d, env, k))
    ensures HasWellFormed(OwnOutcomes(c, d, env)(s, k))
  {
    VisitFindsWellFormed(Asking(d, env, k), d.scopes[k], DiscoveryOrder(c, d, env, s, k), [], false);
  }

  lemma ScopeGoesOn(c: Config, d: Settings, env: Environment, s: Routing, k: nat)
    requires k < |d.scopes|
    ensures GoesOnIfEmpty(OwnOutcomes(c, d, env)(s, k), Outcomes(c, d, env)(s, k),
                          Outcomes(c, d, env)(StatesAfter(c, d, env)(s, k), k + 1))
  {
    FetchFromScope(c, d, env, s, k, Exec(c, s, VisitScope(c, d, env, s, k).steps));
  }

  lemma FetchFromScope(c: Config, d: Settings, env: Environment, s: Routing, k: nat, t: Routing)
    requires k < |d.scopes| && t == Exec(c, s, VisitScope(c, d, env, s, k).steps)
    ensures GoesOnIfEmpty(VisitScope(c, d, env, s, k).outcome, Fetch(c, d, env, s, k).outcome,
                          Fetch(c, d, env, t, k + 1).outcome)
  {
  }

  lemma ScopesFind(c: Config, d: Settings, env: Environment)
    requires forall j: nat :: Truthful(Asking(d, env, j))
    ensures FoundAlong(|d.scopes|, OwnOutcomes(c, d, env), StatesAfter(c, d, env), Outcomes(c, d, env))
  {
    forall s: Routing, k: nat | k < |d.scopes|
      ensures HasWellFormed(OwnOutcomes(c, d, env)(s, k))
      ensures GoesOnIfEmpty(OwnOutcomes(c, d, env)(s, k), Outcomes(c, d, env)(s, k),
                            Outcomes(c, d, env)(StatesAfter(c, d, env)(s, k), k + 1))
    {
      ScopeFinds(c, d, env, s, k);
      ScopeGoesOn(c, d, env, s, k);
    }
  }

  /** That is so if every reply names only well-formed hosts. */
  lemma TruthfulRepliesSuffice(c: Config, d: Settings, env: Environment, s: Routing)
    requires forall j: nat :: Truthful(Asking(d, env, j))
    ensures FindsWellFormed(c, d, env, s)
  {
    ScopesFind(c, d, env);
    WellFormedAlong(|d.scopes|, OwnOutcomes(c, d, env), StatesAfter(c, d, env), Outcomes(c, d, env), s, 0);
    assert Outcomes(c, d, env)(s, 0) == Fetch(c, d, env, s, 0).outcome;
  }

  /** Every node that the scope asks answers with the empty list. */
  ghost predicate AllAnswerEmpty(c: Config, d: Settings, env: Environment, s: Routing, k: nat)
    requires k < |d.scopes|
  {
    forall u | u in DiscoveryOrder(c, d, env, s, k) :: Asking(d, env, k)(u) == Nodes([])
  }

  /** Some node that the scope asks fails and none names a node. */
  ghost predicate OnlyFailures(c: Config, d: Settings, env: Environment, s: Routing, k: nat)
    requires k < |d.scopes|
  {
    && (exists u | u in DiscoveryOrder(c, d, env, s, k) :: !Asking(d, env, k)(u).Nodes?)
    && forall u | u in DiscoveryOrder(c, d, env, s, k) :: !AnswersNodes(Asking(d, env, k)(u))
  }

  lemma ScopeOutcome(c: Config, d: Settings, env: Environment, s: Routing, k: nat)
    requires k < |d.scopes|
    ensures VisitScope(c, d, env, s, k).outcome == Found([]) <==> AllAnswerEmpty(c, d, env, s, k)
    ensures VisitScope(c, d, env, s, k).outcome == Threw <==> OnlyFailures(c, d, env, s, k)
  {
    VisitOutcome(Asking(d, env, k), d.scopes[k], DiscoveryOrder(c, d, env, s, k), [], false);
  }

  lemma {:induction false} EmptyAnswersLeaveNoSteps(ask: Url -> Answer, cluster: bool, order: seq<Url>)
    requires forall u | u in order :: ask(u) == Nodes([])
    ensures VisitNodes(ask, cluster, order, [], false).steps == []
    decreases |order|
  {
    if order != [] {
      assert order[0] in order;
      EmptyAnswersLeaveNoSteps(ask, cluster, order[1..]);
    }
  }

  /** The state in which the scope after k is asked, if k comes up empty: only the plan of k has been made. */
  ghost function NextAsked(c: Config, d: Settings, s: Routing, k: nat): Routing
    requires k < |d.scopes|
  {
    if d.scopes[k] then s else PlanNodes(c, s).1
  }

  lemma AfterEmptyScope(c: Config, d: Settings, env: Environment, s: Routing, k: nat)
    requires k < |d.scopes| && AllAnswerEmpty(c, d, env, s, k)
    ensures Exec(c, s, VisitScope(c, d, env, s, k).steps) == NextAsked(c, d, s, k)
  {
    EmptyAnswersLeaveNoSteps(Asking(d, env, k), d.scopes[k], DiscoveryOrder(c, d, env, s, k));
    if !d.scopes[k] {
      assert VisitScope(c, d, env, s, k).steps == [Planned];
      ExecOne(c, s, Planned);
    }
  }

  lemma FetchOneScope(c: Config, d: Settings, env: Environment, s: Routing, k: nat, t: Routing)
    requires k < |d.scopes| && t == NextAsked(c, d, s, k)
    ensures AllAnswerEmpty(c, d, env, s, k) ==> Fetch(c, d, env, s, k).outcome == Fetch(c, d, env, t, k + 1).outcome
    ensures OnlyFailures(c, d, env, s, k) ==> Fetch(c, d, env, s, k).outcome == Threw
    ensures !AllAnswerEmpty(c, d, env, s, k) && !OnlyFailures(c, d, env, s, k) ==>
            Fetch(c, d, env, s, k).outcome.Found? && Fetch(c, d, env, s, k).outcome.nodes != []
  {
    ScopeOutcome(c, d, env, s, k);
    if AllAnswerEmpty(c, d, env, s, k) {
      AfterEmptyScope(c, d, env, s, k);
    }
  }

  // Fallback in general: what each scope says is a function of the state in which it is asked and its number.

  /** From number k on, passed items lead to one that stops. */
  ghost predicate StopsFrom(n: nat, passes: (Routing, nat) -> bool, stops: (Routing, nat) -> bool,
                            next: (Routing, nat) -> Routing, s: Routing, k: nat)
    decreases n - k
  {
    k < n && (stops(s, k) || (passes(s, k) && StopsFrom(n, passes, stops, next, next(s, k), k + 1)))
  }

  /** From number k on, all items are passed. */
  ghost predicate PassesFrom(n: nat, passes: (Routing, nat) -> bool, next: (Routing, nat) -> Routing,
                             s: Routing, k: nat)
    decreases n - k
  {
    k < n ==> passes(s, k) && PassesFrom(n, passes, next, next(s, k), k + 1)
  }

  /** The outcome from one scope on, given that from the next one on. */
  predicate Decides(empty: bool, failing: bool, outcome: Outcome, later: Outcome) {
    && !(empty && failing)
    && (empty ==> outcome == later)
    && (failing ==> outcome == Threw)
    && (!empty && !failing ==> outcome.Found? && outcome.nodes != [])
  }

  ghost predicate DecidesAlong(n: nat, empty: (Routing, nat) -> bool, failing: (Routing, nat) -> bool,
                               next: (Routing, nat) -> Routing, outcome: (Routing, nat) -> Outcome)
  {
    && (forall s: Routing :: outcome(s, n) == Found([]))
    && forall s: Routing, k: nat | k < n ::
         Decides(empty(s, k), failing(s, k), outcome(s, k), outcome(next(s, k), k + 1))
  }

  lemma {:induction false} FirstOtherDecides(n: nat, empty: (Routing, nat) -> bool, failing: (Routing, nat) -> bool,
                                             next: (Routing, nat) -> Routing, outcome: (Routing, nat) -> Outcome,
                                             s: Routing, k: nat)
    requires DecidesAlong(n, empty, failing, next, outcome) && k <= n
    ensures outcome(s, k) == Threw <==> StopsFrom(n, empty, failing, next, s, k)
    ensures outcome(s, k) == Found([]) <==> PassesFrom(n, empty, next, s, k)
    decreases n - k
  {
    if k < n {
      assert Decides(empty(s, k), failing(s, k), outcome(s, k), outcome(next(s, k), k + 1));
      FirstOtherDecides(n, empty, failing, next, outcome, next(s, k), k + 1);
    }
  }

  ghost function Empties(c: Config, d: Settings, env: Environment): (Routing, nat) -> bool {
    (s, k: nat) => k < |d.scopes| && AllAnswerEmpty(c, d, env, s, k)
  }

  ghost function Failures(c: Config, d: Settings, env: Environment): (Routing, nat) -> bool {
    (s, k: nat) => k < |d.scopes| && OnlyFailures(c, d, env, s, k)
  }

  ghost function Successors(c: Config, d: Settings): (Routing, nat) -> Routing {
    (s, k: nat) => if k < |d.scopes| then NextAsked(c, d, s, k) else s
  }

  ghost function Outcomes(c: Config, d: Settings, env: Environment): (Routing, nat) -> Outcome {
    (s, k: nat) => if k <= |d.scopes| then Fetch(c, d, env, s, k).outcome else Threw
  }

  /** From scope k on, scopes whose nodes all answer with the empty list are passed over, and then comes one
      with failures and no node to offer. */
  ghost predicate FailsFrom(c: Config, d: Settings, env: Environment, s: Routing, k: nat) {
    StopsFrom(|d.scopes|, Empties(c, d, env), Failures(c, d, env), Successors(c, d), s, k)
  }

  /** From scope k on, all nodes of all scopes answer with the empty list. */
  ghost predicate EmptyFrom(c: Config, d: Settings, env: Environment, s: Routing, k: nat) {
    PassesFrom(|d.scopes|, Empties(c, d, env), Successors(c, d), s, k)
  }

  lemma ScopeDecides(c: Config, d: Settings, env: Environment, s: Routing, k: nat)
    requires k < |d.scopes|
    ensures Decides(Empties(c, d, env)(s, k), Failures(c, d, env)(s, k), Outcomes(c, d, env)(s, k),
                    Outcomes(c, d, env)(Successors(c, d)(s, k), k + 1))
  {
    FetchOneScope(c, d, env, s, k, NextAsked(c, d, s, k));
    NotBoth(c, d, env, s, k);
  }

  lemma ScopesDecide(c: Config, d: Settings, env: Environment)
    ensures DecidesAlong(|d.scopes|, Empties(c, d, env), Failures(c, d, env), Successors(c, d), Outcomes(c, d, env))
  {
    forall s: Routing, k: nat | k < |d.scopes|
      ensures Decides(Empties(c, d, env)(s, k), Failures(c, d, env)(s, k), Outcomes(c, d, env)(s, k),
                      Outcomes(c, d, env)(Successors(c, d)(s, k), k + 1))
    {
      ScopeDecides(c, d, env, s, k);
    }
  }

  /** A fetch falls back exactly past the scopes in which every node answers with the empty list. The first other
      scope decides: if a node fails there and none names a node, the fetch throws, whatever later scopes have. */
  lemma FallbackExactly(c: Config, d: Settings, env: Environment, s: Routing, k: nat)
    requires k <= |d.scopes|
    ensures Fetch(c, d, env, s, k).outcome == Threw <==> FailsFrom(c, d, env, s, k)
    ensures Fetch(c, d, env, s, k).outcome == Found([]) <==> EmptyFrom(c, d, env, s, k)
  {
    ScopesDecide(c, d, env);
    FirstOtherDecides(|d.scopes|, Empties(c, d, env), Failures(c, d, env), Successors(c, d), Outcomes(c, d, env), s, k);
    assert Outcomes(c, d, env)(s, k) == Fetch(c, d, env, s, k).outcome;
  }

  lemma NotBoth(c: Config, d: Settings, env: Environment, s: Routing, k: nat)
    requires k < |d.scopes|
    ensures !(AllAnswerEmpty(c, d, env, s, k) && OnlyFailures(c, d, env, s, k))
  {
  }

  /** One node cannot be reached and the other knows of no node in the first scope; in the second, both name
      a node. */
  function OneNodeFails(u: Url): Environment {
    Environment((k: nat, v) => ReplyUnlessFailing(u, k, v), v => NoResponse, k => 0)
  }

  function ReplyUnlessFailing(u: Url, k: nat, v: Url): Reply {
    if k > 0 then Response(200, LocalNodesJson.Print([u.host]))
    else if v == u then NoResponse
    else Response(200, LocalNodesJson.Print([]))
  }

  /** So a refresh can throw although the next scope would have found a node. */
  lemma FailedScopeDoesNotFallBack(c: Config, u: Url, v: Url)
    requires Usable(c.health) && u.WellFormed() && v.WellFormed() && u != v
    ensures var d := Settings([u, v], u.scheme, u.port, [false, true]);
            var s := Start(c, [u, v]);
            && Fetch(c, d, OneNodeFails(u), s, 0).outcome == Threw
            && Fetch(c, d, OneNodeFails(u), s, 1).outcome == Found([Url(u.scheme, u.host, u.port, "", "")])
  {
    var d, s, env := Settings([u, v], u.scheme, u.port, [false, true]), Start(c, [u, v]), OneNodeFails(u);
    FirstScopeFails(c, d, u, v);
    ScopeOutcome(c, d, env, s, 0);
    SecondScopeFinds(c, d, s, u, v);
  }

  lemma FirstScopeFails(c: Config, d: Settings, u: Url, v: Url)
    requires Usable(c.health) && u.WellFormed() && v.WellFormed() && u != v
    requires |d.scopes| == 2 && !d.scopes[0]
    ensures OnlyFailures(c, d, OneNodeFails(u), Start(c, [u, v]), 0)
  {
    var s, env := Start(c, [u, v]), OneNodeFails(u);
    StartPlan(c, u, v);
    OrderAsksEveryone(c, d, env, s, 0, {u, v});
    var ask, order := Asking(d, env, 0), DiscoveryOrder(c, d, env, s, 0);
    assert u in Members(order);
    assert ask(u) == Interpret(d, ReplyUnlessFailing(u, 0, u)) == Unreachable;
    forall x | x in order ensures !AnswersNodes(ask(x)) {
      NoNodesYet(d, u, x);
    }
  }

  lemma StartPlan(c: Config, u: Url, v: Url)
    requires u.WellFormed() && v.WellFormed()
    ensures Members(PlanNodes(c, Start(c, [u, v])).0) == {u, v}
  {
    var s := Start(c, [u, v]);
    assert Members([u, v]) == {u, v};
    assert ActiveOf(c, s) == {u, v};
    assert QuarantineOf(c, s) == {};
    RoutingTheorems.PlanNodesAreAvailable(c, s);
    SampleSpec(c, s);
  }

  lemma NoNodesYet(d: Settings, u: Url, x: Url)
    ensures !AnswersNodes(Asking(d, OneNodeFails(u), 0)(x))
  {
    LocalNodesJson.ParseUndoesPrint([]);
    assert ToUrls(d, []) == [];
    assert Asking(d, OneNodeFails(u), 0)(x) == Interpret(d, ReplyUnlessFailing(u, 0, x));
  }

  lemma OneNodeNow(d: Settings, u: Url, x: Url)
    ensures Asking(d, OneNodeFails(u), 1)(x) == Nodes([Url(d.scheme, u.host, d.port, "", "")])
  {
    LocalNodesJson.ParseUndoesPrint([u.host]);
    OneHost(d, u.host);
    assert Asking(d, OneNodeFails(u), 1)(x) == Interpret(d, ReplyUnlessFailing(u, 1, x));
  }

  lemma OrderAsksEveryone(c: Config, d: Settings, env: Environment, s: Routing, k: nat, nodes: set<Url>)
    requires k < |d.scopes| && Members(if d.scopes[k] then d.initial else PlanNodes(c, s).0) == nodes
    requires forall u | u in nodes :: !u.Empty()
    ensures Members(DiscoveryOrder(c, d, env, s, k)) == nodes
  {
    var list := if d.scopes[k] then d.initial else PlanNodes(c, s).0;
    assert forall u | u in list :: u in Members(list);
    DrainMembers(c.pick, WithSeed(list, env.seed(k)));
  }

  lemma SecondScopeFinds(c: Config, d: Settings, s: Routing, u: Url, v: Url)
    requires u.WellFormed() && v.WellFormed()
    requires d == Settings([u, v], u.scheme, u.port, [false, true])
    ensures Fetch(c, d, OneNodeFails(u), s, 1).outcome == Found([Url(u.scheme, u.host, u.port, "", "")])
  {
    var env, w := OneNodeFails(u), Url(u.scheme, u.host, u.port, "", "");
    var ask, order := Asking(d, env, 1), DiscoveryOrder(c, d, env, s, 1);
    assert order != [] by {
      assert Members([u, v]) == {u, v};
      OrderAsksEveryone(c, d, env, s, 1, {u, v});
      assert u in Members(order);
    }
    forall x ensures ask(x) == Nodes([w]) {
      OneNodeNow(d, u, x);
    }
    EveryoneNames(ask, order, w);
    FetchOfFinding(c, d, env, s, 1, [w]);
  }

  lemma FetchOfFinding(c: Config, d: Settings, env: Environment, s: Routing, k: nat, nodes: seq<Url>)
    requires k < |d.scopes| && nodes != []
    requires VisitNodes(Asking(d, env, k), d.scopes[k], DiscoveryOrder(c, d, env, s, k), [], false).outcome ==
             Found(nodes)
    ensures Fetch(c, d, env, s, k).outcome == Found(nodes)
  {
  }

  lemma OneHost(d: Settings, host: string)
    ensures ToUrls(d, [host]) == [Url(d.scheme, host, d.port, "", "")]
  {
    var u := Url(d.scheme, host, d.port, "", "");
    var raw := seq(|[host]|, i requires 0 <= i < |[host]| => Url(d.scheme, [host][i], d.port, "", ""));
    assert raw == [u];
    assert SortNodes([u]) == [u];
  }

  lemma EveryoneNames(ask: Url -> Answer, order: seq<Url>, w: Url)
    requires order != [] && forall x :: ask(x) == Nodes([w])
    ensures VisitNodes(ask, true, order, [], false).outcome == Found([w])
  {
    forall x ensures x in AnsweredNodes(ask, order) <==> x == w {
      AnsweredMembers(ask, order, x);
      assert order[0] in order;
    }
    assert w in AnsweredNodes(ask, order);
    assert Members(AnsweredNodes(ask, order)) == Members([w]);
    SortAndDedupeDependsOnMembers(AnsweredNodes(ask, order), [w]);
    assert SortNodes([w]) == [w];
    ClusterVisitAsksEveryone(ask, order, [], false);
    assert [] + AnsweredNodes(ask, order) == AnsweredNodes(ask, order);
  }

  /** `steps` of a fetch that comes to `whole` are done, and it goes on in s with scope k. */
  ghost predicate FetchProgress(c: Config, d: Settings, env: Environment, whole: Visit, s: Routing, k: nat,
                                steps: seq<Step>)
    requires k <= |d.scopes|
  {
    var w := Fetch(c, d, env, s, k);
    whole == Visit(w.outcome, steps + w.steps)
  }

  lemma FetchProgressEnds(c: Config, d: Settings, env: Environment, whole: Visit, s: Routing, steps: seq<Step>)
    ensures whole == Fetch(c, d, env, s, 0) ==> FetchProgress(c, d, env, whole, s, 0, [])
    ensures FetchProgress(c, d, env, whole, s, |d.scopes|, steps) ==> whole == Visit(Found([]), steps)
  {
    assert [] + whole.steps == whole.steps;
    assert steps + [] == steps;
  }

  lemma FetchProgressStep(c: Config, d: Settings, env: Environment, whole: Visit, s: Routing, k: nat, steps: seq<Step>)
    requires k < |d.scopes| && FetchProgress(c, d, env, whole, s, k, steps)
    ensures var v := VisitScope(c, d, env, s, k);
            if v.outcome == Found([]) then FetchProgress(c, d, env, whole, Exec(c, s, v.steps), k + 1, steps + v.steps)
            else whole == Visit(v.outcome, steps + v.steps)
  {
    var v := VisitScope(c, d, env, s, k);
    if v.outcome == Found([]) {
      var w := Fetch(c, d, env, Exec(c, s, v.steps), k + 1);
      Regroup(steps, v.steps, w.steps);
    }
  }

  lemma Regroup(a: seq<Step>, b: seq<Step>, c: seq<Step>)
    ensures a + (b + c) == (a + b) + c
  {
  }

  /** The same for the loop over the nodes of one scope. */
  ghost predicate VisitProgress(ask: Url -> Answer, cluster: bool, whole: Visit, rest: seq<Url>,
                                discovered: seq<Url>, failed: bool, steps: seq<Step>) {
    var w := VisitNodes(ask, cluster, rest, discovered, failed);
    whole == Visit(w.outcome, steps + w.steps)
  }

  lemma VisitProgressStep(ask: Url -> Answer, cluster: bool, whole: Visit, u: Url, rest: seq<Url>,
                          discovered: seq<Url>, failed: bool, steps: seq<Step>)
    requires VisitProgress(ask, cluster, whole, [u] + rest, discovered, failed, steps)
    ensures var a := ask(u);
            if !a.Nodes? then
              VisitProgress(ask, cluster, whole, rest, discovered, true, steps + [Observed(u, Blame(a))])
            else if a.nodes == [] then VisitProgress(ask, cluster, whole, rest, discovered, failed, steps)
            else if !cluster then whole == Visit(Found(a.nodes), steps)
            else VisitProgress(ask, cluster, whole, rest, discovered + a.nodes, failed, steps)
  {
    assert ([u] + rest)[1..] == rest;
    assert steps + [] == steps;
    var a := ask(u);
    if !a.Nodes? {
      var w := VisitNodes(ask, cluster, rest, discovered, true);
      assert steps + ([Observed(u, Blame(a))] + w.steps) == (steps + [Observed(u, Blame(a))]) + w.steps;
    }
  }

  /** UpdateLiveNodes: false if it throws. */
  datatype Refresh = Refresh(ok: bool, steps: seq<Step>)

  ghost function Update(c: Config, d: Settings, env: Environment, s: Routing): Refresh {
    var v := Fetch(c, d, env, s, 0);
    var probing := Probing(u => ProbeResult(env.probe(u)));
    match v.outcome
    case Threw => Refresh(false, v.steps)
    case Found(nodes) =>
      if nodes == [] then Refresh(true, v.steps + [probing])
      else Refresh(true, v.steps + [Installing(nodes), probing])
  }

  lemma UpdateIsAllowed(c: Config, d: Settings, env: Environment, s: Routing)
    requires Usable(c.health) && Invariant(c, s) && AllWellFormed(Members(d.initial)) && FindsWellFormed(c, d, env, s)
    ensures AllAllowed(Update(c, d, env, s).steps)
  {
    FetchIsHarmless(c, d, env, s, 0);
  }

  lemma ExecOne(c: Config, s: Routing, step: Step)
    ensures Exec(c, s, [step]) == Apply(c, s, step)
  {
    assert [step][1..] == [];
  }

  lemma ExecTwo(c: Config, s: Routing, a: Step, b: Step)
    ensures Exec(c, s, [a, b]) == Apply(c, Apply(c, s, a), b)
  {
    assert [a, b][1..] == [b];
    ExecOne(c, Apply(c, s, a), b);
  }

  lemma ExecThenProbe(c: Config, s: Routing, steps: seq<Step>, probe: Url -> Observation)
    ensures Exec(c, s, steps + [Probing(probe)]) == Probe(c, Exec(c, s, steps), probe)
  {
    ExecSplits(c, s, steps, [Probing(probe)]);
    ExecOne(c, Exec(c, s, steps), Probing(probe));
  }

  lemma ExecThenInstall(c: Config, s: Routing, steps: seq<Step>, nodes: seq<Url>, probe: Url -> Observation)
    ensures Exec(c, s, steps + [Installing(nodes), Probing(probe)]) ==
            Probe(c, Install(c, Exec(c, s, steps), nodes), probe)
  {
    ExecSplits(c, s, steps, [Installing(nodes), Probing(probe)]);
    ExecTwo(c, Exec(c, s, steps), Installing(nodes), Probing(probe));
  }

  lemma StepKeepsKeys(c: Config, s: Routing, step: Step)
    requires Usable(c.health) && Invariant(c, s) && KeepsMembership(step)
    ensures Apply(c, s, step).statuses.Keys == s.statuses.Keys && Apply(c, s, step).live == s.live
  {
    match step {
      case Observed(u, o) => ObserveKeeps(c, s, u, o);
      case Probing(probe) => ProbingQuarantinesTheResponsive(c.health, s.statuses, probe);
      case Routed => SampleSpec(c, s);
      case Planned => SampleSpec(c, s);
      case Looked(hash) => StickSpec(c, s, hash);
      case Known =>
    }
  }

  lemma {:induction false} HarmlessKeepsKeys(c: Config, s: Routing, steps: seq<Step>)
    requires Usable(c.health) && Invariant(c, s) && Harmless(steps)
    ensures Exec(c, s, steps).statuses.Keys == s.statuses.Keys && Exec(c, s, steps).live == s.live
    decreases |steps|
  {
    if steps != [] {
      assert KeepsMembership(steps[0]);
      StepKeepsInvariant(c, s, steps[0]);
      StepKeepsKeys(c, s, steps[0]);
      HarmlessKeepsKeys(c, Apply(c, s, steps[0]), steps[1..]);
    }
  }

  lemma InstallAndProbe(c: Config, s: Routing, nodes: seq<Url>, probe: Url -> Observation)
    requires Usable(c.health) && Invariant(c, s) && nodes != [] && AllWellFormed(Members(nodes))
    ensures var t := Exec(c, s, [Installing(nodes), Probing(probe)]);
            && t.statuses.Keys == Members(nodes) == Members(t.live)
            && forall u | u in t.statuses :: t.statuses[u] == Refreshed(c, s, probe, u)
  {
    var installed := Install(c, s, nodes);
    InstallSpec(c, s, nodes);
    InstallKeeps(c, s, nodes);
    ExecTwo(c, s, Installing(nodes), Probing(probe));
    StepKeepsKeys(c, installed, Probing(probe));
  }

  /** The status of a member after a refresh: a new node is Fresh, a Down node has been probed once, and
      every other node keeps its status. */
  function Refreshed(c: Config, s: Routing, probe: Url -> Observation, u: Url): Status {
    if u !in s.statuses then Fresh(c.health)
    else if u in DownSet(c.health, s.statuses) then AfterObservation(UINT32, c.health, s.statuses[u], probe(u))
    else s.statuses[u]
  }

  lemma ProbeAfter(c: Config, s: Routing, steps: seq<Step>, probe: Url -> Observation)
    requires Usable(c.health) && Invariant(c, s) && Harmless(steps)
    ensures var t := Exec(c, s, steps + [Probing(probe)]); t.live == s.live && t.statuses.Keys == s.statuses.Keys
  {
    HarmlessKeepsKeys(c, s, steps);
    ExecKeepsInvariant(c, s, steps);
    ExecSplits(c, s, steps, [Probing(probe)]);
    ExecOne(c, Exec(c, s, steps), Probing(probe));
    StepKeepsKeys(c, Exec(c, s, steps), Probing(probe));
  }

  /** A refresh that throws or finds nothing leaves the membership unchanged, whatever the environment replied. */
  lemma FailedRefreshKeepsMembership(c: Config, d: Settings, env: Environment, s: Routing)
    requires Usable(c.health) && Invariant(c, s) && AllWellFormed(Members(d.initial))
    requires Fetch(c, d, env, s, 0).outcome == Threw || Fetch(c, d, env, s, 0).outcome == Found([])
    ensures var r := Update(c, d, env, s);
            var t := Exec(c, s, r.steps);
            t.live == s.live && t.statuses.Keys == s.statuses.Keys && (r.ok <==> Fetch(c, d, env, s, 0).outcome.Found?)
  {
    var v := Fetch(c, d, env, s, 0);
    FetchIsHarmless(c, d, env, s, 0);
    HarmlessKeepsKeys(c, s, v.steps);
    ProbeAfter(c, s, v.steps, u => ProbeResult(env.probe(u)));
  }

  /** What probing does: a Down node is quarantined exactly if it answered with a status below 500 and else stays Down;
      nothing else changes. */
  lemma ProbesDecide(c: Config, s: Routing, env: Environment, u: Url)
    requires u in s.statuses
    ensures var t := Probe(c, s, v => ProbeResult(env.probe(v)));
            && u in t.statuses
            && (!c.health.disabled && s.statuses[u].state == Down ==>
                t.statuses[u].state == if Responds(env.probe(u)) then Quarantined else Down)
            && (c.health.disabled || s.statuses[u].state != Down ==> t.statuses[u] == s.statuses[u])
  {
  }

  /** A refresh that finds nothing probes the Down nodes all the same; one that throws does not. */
  lemma RefreshWithoutFind(c: Config, d: Settings, env: Environment, s: Routing)
    ensures var v, t := Fetch(c, d, env, s, 0), Exec(c, s, Update(c, d, env, s).steps);
            && (v.outcome == Found([]) ==> t == Probe(c, Exec(c, s, v.steps), u => ProbeResult(env.probe(u))))
            && (v.outcome == Threw ==> t == Exec(c, s, v.steps))
  {
    ExecThenProbe(c, s, Fetch(c, d, env, s, 0).steps, u => ProbeResult(env.probe(u)));
  }

  /** NextNode returns nothing exactly if every known node is Down and none answers its probe with a status below
      500. */
  lemma NextNodeIsEmptyExactly(c: Config, s: Routing, env: Environment)
    requires Usable(c.health) && Invariant(c, s)
    ensures NextNode(c, s, v => ProbeResult(env.probe(v))).0.Empty() <==>
            !c.health.disabled && forall v | v in s.statuses :: s.statuses[v].state == Down && !Responds(env.probe(v))
  {
    RoutingTheorems.NextNodeIsAvailable(c, s, v => ProbeResult(env.probe(v)));
  }

  /** Otherwise the membership becomes exactly what was found. New nodes are Fresh; of the nodes that stay,
      each that was Down when the new list was installed has been probed once, the others keep their status. */
  lemma RefreshInstallsWhatItFound(c: Config, d: Settings, env: Environment, s: Routing)
    requires Usable(c.health) && Invariant(c, s) && AllWellFormed(Members(d.initial)) && FindsWellFormed(c, d, env, s)
    requires Fetch(c, d, env, s, 0).outcome.Found? && Fetch(c, d, env, s, 0).outcome.nodes != []
    ensures var v, r := Fetch(c, d, env, s, 0), Update(c, d, env, s);
            var fetched, t := Exec(c, s, v.steps), Exec(c, s, r.steps);
            && r.ok && t.statuses.Keys == Members(v.outcome.nodes) == Members(t.live)
            && fetched.statuses.Keys == s.statuses.Keys
            && forall u | u in t.statuses :: t.statuses[u] == Refreshed(c, fetched, v => ProbeResult(env.probe(v)), u)
  {
    var v := Fetch(c, d, env, s, 0);
    FetchIsHarmless(c, d, env, s, 0);
    ExecKeepsInvariant(c, s, v.steps);
    var probe := (u: Url) => ProbeResult(env.probe(u));
    ExecSplits(c, s, v.steps, [Installing(v.outcome.nodes), Probing(probe)]);
    HarmlessKeepsKeys(c, s, v.steps);
    InstallAndProbe(c, Exec(c, s, v.steps), v.outcome.nodes, probe);
  }

  // ----- Whole histories of public operations -----

  datatype Operation =
    | Report(node: Url, observation: Observation)
    | Refreshing(env: Environment)
    | ProbingDown(probe: Url -> Observation)
    | AskNextNode(probe: Url -> Observation)
    | AskPlan
    | AskForHash(hash: int)
    | AskKnown

  /** Reports spell nodes in a well-formed way, and what a refresh finds is well-formed. */
  ghost predicate Possible(c: Config, d: Settings, s: Routing, op: Operation) {
    match op
    case Report(u, _) => u.WellFormed()
    case Refreshing(env) => FindsWellFormed(c, d, env, s)
    case _ => true
  }

  ghost predicate AllPossible(c: Config, d: Settings, s: Routing, ops: seq<Operation>)
    decreases |ops|
  {
    ops == [] || (Possible(c, d, s, ops[0]) && AllPossible(c, d, Exec(c, s, StepsOf(c, d, s, ops[0])), ops[1..]))
  }

  /** The elementary steps of one public operation. */
  ghost function StepsOf(c: Config, d: Settings, s: Routing, op: Operation): seq<Step> {
    match op
    case Report(u, o) => [Observed(u, o)]
    case Refreshing(env) => Update(c, d, env, s).steps
    case ProbingDown(probe) => [Probing(probe)]
    case AskNextNode(probe) => if ActiveOf(c, s) == {} then [Probing(probe), Routed] else [Routed]
    case AskPlan => [Planned]
    case AskForHash(hash) => [Looked(hash)]
    case AskKnown => [Known]
  }

  ghost function RunOperations(c: Config, d: Settings, s: Routing, ops: seq<Operation>): Routing
    decreases |ops|
  {
    if ops == [] then s else RunOperations(c, d, Exec(c, s, StepsOf(c, d, s, ops[0])), ops[1..])
  }

  lemma OperationKeepsInvariant(c: Config, d: Settings, s: Routing, op: Operation)
    requires Usable(c.health) && Invariant(c, s) && AllWellFormed(Members(d.initial)) && Possible(c, d, s, op)
    ensures Invariant(c, Exec(c, s, StepsOf(c, d, s, op)))
  {
    if op.Refreshing? {
      UpdateIsAllowed(c, d, op.env, s);
    }
    ExecKeepsInvariant(c, s, StepsOf(c, d, s, op));
  }

  lemma {:induction false} OperationsKeepInvariant(c: Config, d: Settings, s: Routing, ops: seq<Operation>)
    requires Usable(c.health) && Invariant(c, s) && AllWellFormed(Members(d.initial)) && AllPossible(c, d, s, ops)
    ensures Invariant(c, RunOperations(c, d, s, ops))
    decreases |ops|
  {
    if ops != [] {
      OperationKeepsInvariant(c, d, s, ops[0]);
      OperationsKeepInvariant(c, d, Exec(c, s, StepsOf(c, d, s, ops[0])), ops[1..]);
    }
  }

  /** NextNode changes the state as its elementary steps do. */
  lemma NextNodeIsItsSteps(c: Config, d: Settings, s: Routing, probe: Url -> Observation)
    ensures NextNode(c, s, probe).1 == Exec(c, s, StepsOf(c, d, s, AskNextNode(probe)))
  {
    var steps := StepsOf(c, d, s, AskNextNode(probe));
    if ActiveOf(c, s) == {} {
      assert NextNode(c, s, probe).1 == Apply(c, Apply(c, s, Probing(probe)), Routed);
      assert steps == [Probing(probe), Routed];
      ExecTwo(c, s, Probing(probe), Routed);
    } else {
      assert NextNode(c, s, probe).1 == Apply(c, s, Routed);
      assert steps == [Routed];
      ExecOne(c, s, Routed);
    }
  }

  /** After any history of public operations from construction in which nodes are spelt in a well-formed way: the
      store's keys are the non-empty sorted node list, and every cached hash names a quarantined node. */
  lemma EveryHistoryIsConsistent(c: Config, d: Settings, ops: seq<Operation>)
    requires Usable(c.health) && d.initial != [] && AllWellFormed(Members(d.initial))
    requires AllPossible(c, d, Start(c, d.initial), ops)
    ensures Invariant(c, Start(c, d.initial))
    ensures var t := RunOperations(c, d, Start(c, d.initial), ops);
            && t.live != [] && Members(t.live) == t.statuses.Keys && StrictlyOrdered(t.live)
            && forall h | h in t.sticky :: t.sticky[h] in t.statuses && t.statuses[t.sticky[h]].state == Quarantined
  {
    StartIsInvariant(c, d.initial);
    OperationsKeepInvariant(c, d, Start(c, d.initial), ops);
    var t := RunOperations(c, d, Start(c, d.initial), ops);
    assert forall h | h in t.sticky :: t.sticky[h] in QuarantineOf(c, t);
  }
}
