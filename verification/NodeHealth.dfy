/** Per-node health (src/node_health.cpp): the observation-driven state machine,
    what an arbitrary observation history means, and the store that holds it. */
module NodeHealth {
  import opened Urls
  import opened NodeLists
  import opened Basics

  const UINT32 := 0x1_0000_0000
  type Uint32 = x: int | 0 <= x < UINT32

  datatype Observation = Success | ServerError | ConnectionFailure
  datatype State = Active | Quarantined | Down
  datatype Status = Status(state: State, errors: nat, successes: nat)

  datatype HealthConfig = HealthConfig(errorThreshold: Uint32, successThreshold: Uint32, disabled: bool)

  function AtLeastOne(x: Uint32): Uint32 {
    if x == 0 then 1 else x
  }

  /** The thresholds as the store's constructor keeps them. */
  function Normalised(c: HealthConfig): HealthConfig {
    c.(errorThreshold := AtLeastOne(c.errorThreshold), successThreshold := AtLeastOne(c.successThreshold))
  }

  predicate Usable(c: HealthConfig) {
    c == Normalised(c)
  }

  function Fresh(c: HealthConfig): Status {
    Status(Active, 0, c.successThreshold)
  }

  /** An unsigned counter that holds `width` values. */
  function Increment(width: nat, x: nat): nat {
    if x + 1 < width then x + 1 else 0
  }

  /** One observation; the counters are incremented in that width. */
  function AfterObservation(width: nat, c: HealthConfig, s: Status, o: Observation): Status
  {
    match o
    case Success =>
      if s.state == Down then Status(Quarantined, 0, 1)
      else if s.state == Quarantined && Increment(width, s.successes) < c.successThreshold then
        Status(Quarantined, 0, Increment(width, s.successes))
      else Status(Active, 0, c.successThreshold)
    case ServerError =>
      var errors := Increment(width, s.errors);
      Status(if errors >= c.errorThreshold then Down else s.state, errors, 0)
    case ConnectionFailure => Status(Down, c.errorThreshold, 0)
  }

  /** What takes a quarantined node out of quarantine: a connection failure, the server error that reaches one
      threshold, or the success that reaches the other. */
  predicate LeavesQuarantine(c: HealthConfig, s: Status, o: Observation) {
    match o
    case ConnectionFailure => true
    case ServerError => Increment(UINT32, s.errors) >= c.errorThreshold
    case Success => Increment(UINT32, s.successes) >= c.successThreshold
  }

  // ----- What a history of observations means -----

  type History = seq<Observation>

  function Run(width: nat, c: HealthConfig, h: History): Status
  {
    if h == [] then Fresh(c) else AfterObservation(width, c, Run(width, c, h[..|h| - 1]), h[|h| - 1])
  }

  function AfterLastSuccess(h: History): History {
    if h == [] || h[|h| - 1] == Success then [] else AfterLastSuccess(h[..|h| - 1]) + [h[|h| - 1]]
  }

  function CountServerErrors(h: History): nat {
    if h == [] then 0 else CountServerErrors(h[..|h| - 1]) + if h[|h| - 1] == ServerError then 1 else 0
  }

  function TrailingSuccesses(h: History): nat {
    if h == [] || h[|h| - 1] != Success then 0 else TrailingSuccesses(h[..|h| - 1]) + 1
  }

  /** Since the last success, a connection failure or enough server errors. */
  ghost predicate Failed(c: HealthConfig, h: History) {
    var recent := AfterLastSuccess(h);
    ConnectionFailure in recent || CountServerErrors(recent) >= c.errorThreshold
  }

  /** Strictly after prefix `p`, and not by the very next observation, a long enough run of successes ended. */
  ghost predicate RecoveredAfter(c: HealthConfig, h: History, p: nat) {
    exists k :: p + 2 <= k <= |h| && TrailingSuccesses(h[..k]) >= c.successThreshold
  }

  ghost predicate NeverFailedOrRecovered(c: HealthConfig, h: History) {
    && !Failed(c, h)
    && forall p: nat | p <= |h| && Failed(c, h[..p]) :: RecoveredAfter(c, h, p)
  }

  /** A counter this wide holds both thresholds. */
  predicate Wide(width: nat, c: HealthConfig) {
    width > c.errorThreshold && width > c.successThreshold && width > 2
  }

  /** What one node's status records of its history: `failed` and `errors` describe the part after
      the last success, `run` the successes at the end. */
  ghost predicate Records(c: HealthConfig, s: Status, failed: bool, errors: nat, run: nat) {
    && (s.state == Down <==> failed || errors >= c.errorThreshold)
    && (s.state != Down ==> s.errors == errors)
    && (s.state == Quarantined ==> s.successes == run && (run < c.successThreshold || run == 1))
    && (failed || errors > 0 ==> run == 0)
  }

  lemma StepKeepsRecord(width: nat, c: HealthConfig, s: Status, o: Observation, failed: bool, errors: nat, run: nat)
    requires Usable(c) && Wide(width, c) && Records(c, s, failed, errors, run)
    ensures Records(c, AfterObservation(width, c, s, o),
                    o != Success && (failed || o == ConnectionFailure),
                    if o == Success then 0 else errors + if o == ServerError then 1 else 0,
                    if o == Success then run + 1 else 0)
  {
  }

  lemma RecentSnoc(h: History)
    requires h != []
    ensures var f, o := h[..|h| - 1], h[|h| - 1];
            && (ConnectionFailure in AfterLastSuccess(h) <==>
                o != Success && (ConnectionFailure in AfterLastSuccess(f) || o == ConnectionFailure))
            && CountServerErrors(AfterLastSuccess(h)) ==
               if o == Success then 0 else CountServerErrors(AfterLastSuccess(f)) + if o == ServerError then 1 else 0
  {
    var recent := AfterLastSuccess(h[..|h| - 1]);
    assert (recent + [h[|h| - 1]])[..|recent|] == recent;
  }

  lemma {:induction false} StatusRecordsHistory(width: nat, c: HealthConfig, h: History)
    requires Usable(c) && Wide(width, c)
    ensures Records(c, Run(width, c, h), ConnectionFailure in AfterLastSuccess(h),
                    CountServerErrors(AfterLastSuccess(h)), TrailingSuccesses(h))
  {
    if h != [] {
      var f, o := h[..|h| - 1], h[|h| - 1];
      StatusRecordsHistory(width, c, f);
      StepKeepsRecord(width, c, Run(width, c, f), o, ConnectionFailure in AfterLastSuccess(f),
                      CountServerErrors(AfterLastSuccess(f)), TrailingSuccesses(f));
      RecentSnoc(h);
    }
  }

  lemma DownMeansFailed(width: nat, c: HealthConfig, h: History)
    requires Usable(c) && Wide(width, c)
    ensures Run(width, c, h).state == Down <==> Failed(c, h)
  {
    StatusRecordsHistory(width, c, h);
  }

  /** How one more observation changes the state, in terms of the history. */
  lemma StateAfter(width: nat, c: HealthConfig, f: History, o: Observation)
    requires Usable(c) && Wide(width, c)
    ensures var before, after := Run(width, c, f).state, Run(width, c, f + [o]).state;
            && (before == Active ==> after != Quarantined)
            && (before == Down ==> after != Active)
            && (before == Quarantined && after == Active ==> TrailingSuccesses(f + [o]) >= c.successThreshold)
            && (before == Quarantined && after == Quarantined ==> TrailingSuccesses(f + [o]) < c.successThreshold)
  {
    assert (f + [o])[..|f|] == f;
    StatusRecordsHistory(width, c, f);
  }

  lemma RecoveryPersists(c: HealthConfig, f: History, o: Observation, p: nat)
    requires p <= |f|
    ensures RecoveredAfter(c, f, p) ==> RecoveredAfter(c, f + [o], p)
    ensures RecoveredAfter(c, f + [o], p) ==>
            RecoveredAfter(c, f, p) || (p + 2 <= |f| + 1 && TrailingSuccesses(f + [o]) >= c.successThreshold)
  {
    var h := f + [o];
    if RecoveredAfter(c, f, p) {
      var k :| p + 2 <= k <= |f| && TrailingSuccesses(f[..k]) >= c.successThreshold;
      assert h[..k] == f[..k];
    }
    if RecoveredAfter(c, h, p) {
      var k :| p + 2 <= k <= |h| && TrailingSuccesses(h[..k]) >= c.successThreshold;
      if k <= |f| { assert h[..k] == f[..k]; } else { assert h[..k] == h; }
    }
  }

  lemma ActiveStays(width: nat, c: HealthConfig, f: History, o: Observation)
    requires Usable(c) && Wide(width, c) && Run(width, c, f + [o]).state == Active
    requires Run(width, c, f).state == Active ==> NeverFailedOrRecovered(c, f)
    ensures NeverFailedOrRecovered(c, f + [o])
  {
    var h := f + [o];
    DownMeansFailed(width, c, h);
    forall p: nat | p <= |h| && Failed(c, h[..p]) ensures RecoveredAfter(c, h, p) {
      assert h[..|h|] == h;
      assert p <= |f| && h[..p] == f[..p];
      FailureBeforeActive(width, c, f, o, p);
    }
  }

  lemma FailureBeforeActive(width: nat, c: HealthConfig, f: History, o: Observation, p: nat)
    requires Usable(c) && Wide(width, c) && Run(width, c, f + [o]).state == Active
    requires Run(width, c, f).state == Active ==> NeverFailedOrRecovered(c, f)
    requires p <= |f| && Failed(c, f[..p])
    ensures RecoveredAfter(c, f + [o], p)
  {
    StateAfter(width, c, f, o);
    RecoveryPersists(c, f, o, p);
    if Run(width, c, f).state != Active {
      DownMeansFailed(width, c, f);
      assert f[..|f|] == f && p != |f|;
      var h := f + [o];
      assert h[..|h|] == h && TrailingSuccesses(h[..|h|]) >= c.successThreshold;
    }
  }

  lemma QuarantineStays(width: nat, c: HealthConfig, f: History, o: Observation)
    requires Usable(c) && Wide(width, c) && Run(width, c, f + [o]).state == Quarantined
    requires Run(width, c, f).state == Quarantined ==> !NeverFailedOrRecovered(c, f)
    ensures !NeverFailedOrRecovered(c, f + [o])
  {
    var h := f + [o];
    StateAfter(width, c, f, o);
    DownMeansFailed(width, c, f);
    var p: nat := |f|;
    if Run(width, c, f).state == Quarantined {
      p :| p <= |f| && Failed(c, f[..p]) && !RecoveredAfter(c, f, p);
    }
    assert h[..p] == f[..p] && f[..|f|] == f;
    RecoveryPersists(c, f, o, p);
    assert Failed(c, h[..p]) && !RecoveredAfter(c, h, p);
  }

  lemma {:induction false} ActiveMeansRecovered(width: nat, c: HealthConfig, h: History)
    requires Usable(c) && Wide(width, c)
    ensures Run(width, c, h).state == Active <==> NeverFailedOrRecovered(c, h)
  {
    DownMeansFailed(width, c, h);
    if h == [] {
      assert forall p: nat | p <= |h| :: h[..p] == h;
    } else {
      var f, o := h[..|h| - 1], h[|h| - 1];
      assert h == f + [o];
      ActiveMeansRecovered(width, c, f);
      if Run(width, c, h).state == Active {
        ActiveStays(width, c, f, o);
      } else if Run(width, c, h).state == Quarantined {
        QuarantineStays(width, c, f, o);
      }
    }
  }

  /** The state after any history of a node that starts Active, decided by the history alone. */
  lemma StateIsDecidedByHistory(c: HealthConfig, h: History)
    requires Usable(c)
    ensures Run(UINT32, c, h).state ==
            if Failed(c, h) then Down
            else if forall p: nat | p <= |h| && Failed(c, h[..p]) :: RecoveredAfter(c, h, p) then Active
            else Quarantined
  {
    DownMeansFailed(UINT32, c, h);
    ActiveMeansRecovered(UINT32, c, h);
  }

  /** Wrap-around of the 32-bit counters never shows in the state: any wider counter gives the same one. */
  lemma CounterWidthIsInvisible(c: HealthConfig, h: History, width: nat)
    requires Usable(c) && width >= UINT32
    ensures Run(width, c, h).state == Run(UINT32, c, h).state
  {
    DownMeansFailed(UINT32, c, h);
    DownMeansFailed(width, c, h);
    ActiveMeansRecovered(UINT32, c, h);
    ActiveMeansRecovered(width, c, h);
  }

  lemma {:induction false} TrailingSuccessesAreSuccesses(h: History, i: nat)
    requires |h| - TrailingSuccesses(h) <= i < |h|
    ensures h[i] == Success
  {
    if i < |h| - 1 {
      TrailingSuccessesAreSuccesses(h[..|h| - 1], i);
    }
  }

  /** Every return to Active ends a run of at least the success threshold of successes, and only
      a quarantined node returns. */
  lemma PromotionEndsSuccessRun(c: HealthConfig, h: History, o: Observation)
    requires Usable(c)
    requires Run(UINT32, c, h).state != Active && Run(UINT32, c, h + [o]).state == Active
    ensures Run(UINT32, c, h).state == Quarantined && |h| + 1 >= c.successThreshold
    ensures forall i | |h| + 1 - c.successThreshold <= i <= |h| :: (h + [o])[i] == Success
  {
    var g := h + [o];
    StateAfter(UINT32, c, h, o);
    TrailingSuccessesBound(g);
    forall i | |h| + 1 - c.successThreshold <= i <= |h| ensures g[i] == Success {
      TrailingSuccessesAreSuccesses(g, i);
    }
  }

  lemma {:induction false} TrailingSuccessesBound(h: History)
    ensures TrailingSuccesses(h) <= |h|
  {
    if h != [] {
      TrailingSuccessesBound(h[..|h| - 1]);
    }
  }

  function Successes(n: nat): History {
    if n == 0 then [] else Successes(n - 1) + [Success]
  }

  /** From Down, an uninterrupted recovery reaches Active after exactly max(2, threshold) successes. */
  lemma {:induction false} RecoveryLength(c: HealthConfig, h: History, n: nat)
    requires Usable(c) && Run(UINT32, c, h).state == Down
    ensures Run(UINT32, c, h + Successes(n)).state ==
            if n == 0 then Down
            else if n < 2 || n < c.successThreshold then Quarantined
            else Active
    ensures 1 <= n < 2 || 1 <= n < c.successThreshold ==> Run(UINT32, c, h + Successes(n)).successes == n
  {
    var g := h + Successes(n);
    if n == 0 {
      assert g == h;
    } else {
      RecoveryLength(c, h, n - 1);
      assert g[..|g| - 1] == h + Successes(n - 1);
    }
  }

  // ----- The store -----

  type Statuses = map<Url, Status>

  function InState(m: Statuses, st: State): set<Url> {
    set u | u in m && m[u].state == st
  }

  function ActiveSet(c: HealthConfig, m: Statuses): set<Url> {
    if c.disabled then m.Keys else InState(m, Active)
  }

  function QuarantinedSet(c: HealthConfig, m: Statuses): set<Url> {
    if c.disabled then {} else InState(m, Quarantined)
  }

  function DownSet(c: HealthConfig, m: Statuses): set<Url> {
    if c.disabled then {} else InState(m, Down)
  }

  function Added(c: HealthConfig, m: Statuses, u: Url): Statuses {
    if u in m then m else m[u := Fresh(c)]
  }

  function Reported(c: HealthConfig, m: Statuses, u: Url, o: Observation): Statuses {
    if c.disabled || u !in m then m else m[u := AfterObservation(UINT32, c, m[u], o)]
  }

  /** Every node that was Down has been probed once; nothing else changed. */
  function Probed(c: HealthConfig, m: Statuses, probe: Url -> Observation): Statuses {
    map u | u in m :: if u in DownSet(c, m) then AfterObservation(UINT32, c, m[u], probe(u)) else m[u]
  }

  /** The Down nodes whose probe succeeded, which is what `ProbeDownNodes` returns in order. */
  function Responsive(c: HealthConfig, m: Statuses, probe: Url -> Observation): set<Url> {
    set u | u in DownSet(c, m) && probe(u) == Success
  }

  /** Probing only moves responsive Down nodes to quarantine. */
  lemma ProbingQuarantinesTheResponsive(c: HealthConfig, m: Statuses, probe: Url -> Observation)
    requires Usable(c)
    ensures Probed(c, m, probe).Keys == m.Keys
    ensures ActiveSet(c, Probed(c, m, probe)) == ActiveSet(c, m)
    ensures QuarantinedSet(c, Probed(c, m, probe)) == QuarantinedSet(c, m) + Responsive(c, m, probe)
    ensures DownSet(c, Probed(c, m, probe)) == DownSet(c, m) - Responsive(c, m, probe)
  {
  }

  // ----- The map is ordered by text -----

  predicate PrintsAlike(u: Url, v: Url) {
    u.ToString() == v.ToString()
  }

  /** The key under which an ordered map finds this node: the one that prints alike, if there is one. */
  ghost function KeyOf(m: Statuses, u: Url): (k: Url)
    ensures k in m <==> exists v :: v in m && PrintsAlike(v, u)
    ensures k in m ==> PrintsAlike(k, u)
    ensures k !in m ==> k == u
  {
    if v :| v in m && PrintsAlike(v, u) then v else u
  }

  /** A key is found under itself, and among well-formed nodes a well-formed node is found only so. */
  lemma KeyOfKnown(m: Statuses, u: Url)
    ensures TextIdentifies(m.Keys) && u in m ==> KeyOf(m, u) == u
    ensures AllWellFormed(m.Keys) && u.WellFormed() ==> KeyOf(m, u) == u
  {
    var k := KeyOf(m, u);
    if AllWellFormed(m.Keys) && u.WellFormed() && k in m {
      ToStringIsInjective(k, u);
    }
  }

  /** `[::1]` finds what was added as `::1`. */
  lemma BracketedIsFound(status: Status)
    ensures var plain, bracketed := Url("http", "::1", 8080, "", ""), Url("http", "[::1]", 8080, "", "");
            KeyOf(map[plain := status], bracketed) == plain
  {
    EqualitiesDisagree();
    var plain, bracketed := Url("http", "::1", 8080, "", ""), Url("http", "[::1]", 8080, "", "");
    assert PrintsAlike(plain, bracketed) && plain in map[plain := status];
  }

  lemma KeyIsFound(m: Statuses, k: Url, u: Url)
    requires TextIdentifies(m.Keys) && k in m.Keys && PrintsAlike(k, u)
    ensures KeyOf(m, u) == k
  {
    var l := KeyOf(m, u);
    assert l in m.Keys && l.ToString() == k.ToString();
  }

  lemma KeyIsMissing(m: Statuses, keys: seq<Url>, u: Url)
    requires Members(keys) == m.Keys && forall j | 0 <= j < |keys| :: !PrintsAlike(keys[j], u)
    ensures KeyOf(m, u) == u && u !in m
  {
    forall v | v in m ensures !PrintsAlike(v, u) {
      assert v in Members(keys);
    }
  }

  lemma KeyOfSameKeys(m: Statuses, n: Statuses, u: Url)
    requires m.Keys == n.Keys && TextIdentifies(m.Keys)
    ensures KeyOf(m, u) == KeyOf(n, u)
  {
    var k, l := KeyOf(m, u), KeyOf(n, u);
    assert k in m <==> l in n;
    assert k in m ==> k in m.Keys && l in m.Keys && PrintsAlike(k, l);
  }

  /** Adding a list of nodes one after the other. */
  ghost function AddedAll(c: HealthConfig, nodes: seq<Url>): Statuses {
    if nodes == [] then map[]
    else
      var m, u := AddedAll(c, nodes[..|nodes| - 1]), nodes[|nodes| - 1];
      Added(c, m, KeyOf(m, u))
  }

  /** Well-formed nodes are added each once. */
  lemma {:induction false} AddedAllSpec(c: HealthConfig, nodes: seq<Url>)
    requires AllWellFormed(Members(nodes))
    ensures AddedAll(c, nodes) == map u | u in Members(nodes) :: Fresh(c)
  {
    if nodes != [] {
      var n := |nodes| - 1;
      assert nodes == nodes[..n] + [nodes[n]];
      assert Members(nodes) == Members(nodes[..n]) + {nodes[n]};
      AddedAllSpec(c, nodes[..n]);
      KeyOfKnown(AddedAll(c, nodes[..n]), nodes[n]);
    }
  }

  /** The strictly sorted list of a set of nodes. */
  ghost predicate IsListing(r: seq<Url>, nodes: set<Url>) {
    Members(r) == nodes && StrictlyOrdered(r)
  }

  lemma ListingIsInOrder(r: seq<Url>, nodes: set<Url>)
    requires IsListing(r, nodes) && AllWellFormed(nodes)
    ensures r == InOrder(nodes)
  {
    StrictOrderIsUnique(r, InOrder(nodes));
  }

  method FindText(keys: seq<Url>, u: Url) returns (i: nat)
    ensures i <= |keys| && (i < |keys| ==> PrintsAlike(keys[i], u))
    ensures forall j | 0 <= j < i :: !PrintsAlike(keys[j], u)
  {
    i := 0;
    while i < |keys| && !PrintsAlike(keys[i], u)
      invariant i <= |keys| && forall j | 0 <= j < i :: !PrintsAlike(keys[j], u)
    {
      i := i + 1;
    }
  }

  class NodeHealthStore {
    const config: HealthConfig
    var statuses: Statuses

    /** No two keys print alike, as in every map ordered by text. */
    ghost predicate Valid()
      reads this
    {
      Usable(config) && TextIdentifies(statuses.Keys)
    }

    constructor (c: HealthConfig, initial: seq<Url>)
      ensures Valid() && config == Normalised(c)
      ensures config.errorThreshold == (if c.errorThreshold == 0 then 1 else c.errorThreshold)
      ensures config.successThreshold == (if c.successThreshold == 0 then 1 else c.successThreshold)
      ensures config.disabled == c.disabled
      ensures statuses == AddedAll(config, initial)
    {
      config := Normalised(c);
      statuses := map[];
      new;
      for i := 0 to |initial|
        invariant Valid() && statuses == AddedAll(config, initial[..i])
      {
        assert initial[..i + 1][..i] == initial[..i];
        AddNode(initial[i]);
      }
      assert initial[..|initial|] == initial;
    }

    /** The look-up that every operation on one node starts with. */
    method Find(u: Url) returns (found: bool, k: Url)
      requires Valid()
      ensures k == KeyOf(statuses, u) && found == (k in statuses)
    {
      var keys := Enumerate(statuses.Keys);
      var i := FindText(keys, u);
      if i == |keys| {
        KeyIsMissing(statuses, keys, u);
        return false, u;
      }
      assert keys[i] in Members(keys);
      KeyIsFound(statuses, keys[i], u);
      return true, keys[i];
    }

    method AddNode(u: Url)
      requires Valid()
      modifies this
      ensures Valid() && statuses == Added(config, old(statuses), KeyOf(old(statuses), u))
    {
      var found, _ := Find(u);
      if found {
        return;
      }
      statuses := statuses[u := Status(Active, 0, config.successThreshold)];
    }

    method RemoveNode(u: Url)
      requires Valid()
      modifies this
      ensures Valid() && statuses == old(statuses) - {KeyOf(old(statuses), u)}
    {
      var found, k := Find(u);
      statuses := statuses - {k};
    }

    method ReportNodeResult(u: Url, o: Observation)
      requires Valid()
      modifies this
      ensures Valid() && statuses == Reported(config, old(statuses), KeyOf(old(statuses), u), o)
    {
      if config.disabled {
        return;
      }
      var found, k := Find(u);
      if !found {
        return;
      }
      var s := statuses[k];
      match o {
        case Success =>
          s := s.(errors := 0);
          if s.state == Down {
            s := s.(state := Quarantined, successes := 1);
          } else if s.state == Quarantined {
            s := s.(successes := Increment(UINT32, s.successes));
            if s.successes >= config.successThreshold {
              s := s.(state := Active, successes := config.successThreshold);
            }
          } else {
            s := s.(successes := config.successThreshold);
          }
        case ServerError =>
          s := s.(errors := Increment(UINT32, s.errors), successes := 0);
          if s.errors >= config.errorThreshold {
            s := s.(state := Down);
          }
        case ConnectionFailure =>
          s := Status(Down, config.errorThreshold, 0);
      }
      statuses := statuses[k := s];
    }

    method GetNodeStatus(u: Url) returns (r: Option<Status>)
      requires Valid()
      ensures var k := KeyOf(statuses, u); r == if k in statuses then Some(statuses[k]) else None
    {
      var found, k := Find(u);
      return if found then Some(statuses[k]) else None;
    }

    /** Collects in the map's order of iteration, then sorts. */
    method NodesAmong(nodes: set<Url>) returns (r: seq<Url>)
      requires TextIdentifies(nodes)
      ensures IsListing(r, nodes)
    {
      r := Enumerate(nodes);
      SortOfDistinct(r);
      SortAndDedupeIsStrict(r);
      r := SortNodes(r);
    }

    method GetActiveNodes() returns (r: seq<Url>)
      requires Valid()
      ensures IsListing(r, ActiveSet(config, statuses))
    {
      r := NodesAmong(ActiveSet(config, statuses));
    }

    method GetQuarantinedNodes() returns (r: seq<Url>)
      requires Valid()
      ensures IsListing(r, QuarantinedSet(config, statuses))
    {
      r := NodesAmong(QuarantinedSet(config, statuses));
    }

    method GetDownNodes() returns (r: seq<Url>)
      requires Valid()
      ensures IsListing(r, DownSet(config, statuses))
    {
      r := NodesAmong(DownSet(config, statuses));
    }

    method ProbeDownNodes(probe: Url -> Observation) returns (responsive: seq<Url>)
      requires Valid()
      modifies this
      ensures Valid() && statuses == Probed(config, old(statuses), probe)
      ensures IsListing(responsive, Responsive(config, old(statuses), probe))
    {
      responsive := [];
      if config.disabled {
        return;
      }
      var candidates := GetDownNodes();
      ghost var m := statuses;
      StrictMeansDistinctTexts(candidates);
      ResponsiveInOrder(config, m, probe, candidates);
      ProbedAmongNone(config, m, probe);
      for i := 0 to |candidates|
        invariant Valid() && statuses == ProbedAmong(config, m, probe, Members(candidates[..i]))
        invariant responsive == Filter(candidates[..i], probe)
      {
        var u := candidates[i];
        MembersSnoc(candidates, i);
        FilterSnoc(candidates[..i], u, probe);
        KeyOfKnown(statuses, u);
        var status := GetNodeStatus(u);
        if status.None? {
          continue;
        }
        var o := probe(u);
        ProbedAmongStep(config, m, probe, Members(candidates[..i]), u);
        ReportNodeResult(u, o);
        if o == Success {
          responsive := responsive + [u];
        }
      }
      assert candidates[..|candidates|] == candidates;
    }
  }

  /** Probing done for the nodes of `done` only. */
  function ProbedAmong(c: HealthConfig, m: Statuses, probe: Url -> Observation, done: set<Url>): Statuses {
    map u | u in m :: if u in done then AfterObservation(UINT32, c, m[u], probe(u)) else m[u]
  }

  lemma ProbedAmongNone(c: HealthConfig, m: Statuses, probe: Url -> Observation)
    ensures ProbedAmong(c, m, probe, Members([])) == m
  {
  }

  lemma ProbedAmongStep(c: HealthConfig, m: Statuses, probe: Url -> Observation, done: set<Url>, u: Url)
    requires !c.disabled && u in m && u !in done
    ensures Reported(c, ProbedAmong(c, m, probe, done), u, probe(u)) == ProbedAmong(c, m, probe, done + {u})
  {
  }

  lemma MembersSnoc(s: seq<Url>, i: nat)
    requires i < |s| && NoRepeats(s)
    ensures s[..i + 1] == s[..i] + [s[i]]
    ensures Members(s[..i + 1]) == Members(s[..i]) + {s[i]}
    ensures s[i] !in Members(s[..i]) && s[i] in Members(s)
  {
  }

  function Filter(s: seq<Url>, probe: Url -> Observation): seq<Url> {
    if s == [] then []
    else (if probe(s[0]) == Success then [s[0]] else []) + Filter(s[1..], probe)
  }

  lemma {:induction false} FilterSnoc(s: seq<Url>, u: Url, probe: Url -> Observation)
    ensures Filter(s + [u], probe) == Filter(s, probe) + if probe(u) == Success then [u] else []
  {
    if s != [] {
      FilterSnoc(s[1..], u, probe);
      assert (s + [u])[1..] == s[1..] + [u];
    }
  }

  lemma {:induction false} FilterMembers(s: seq<Url>, probe: Url -> Observation, u: Url)
    ensures u in Filter(s, probe) <==> u in s && probe(u) == Success
  {
    if s != [] {
      FilterMembers(s[1..], probe, u);
      assert s == [s[0]] + s[1..];
    }
  }

  lemma {:induction false} FilterKeepsOrder(s: seq<Url>, probe: Url -> Observation)
    requires StrictlyOrdered(s)
    ensures StrictlyOrdered(Filter(s, probe))
  {
    if s != [] {
      FilterKeepsOrder(s[1..], probe);
      var r := Filter(s[1..], probe);
      assert ([s[0]] + r)[1..] == r && [] + r == r;
      forall u | u in r ensures Less(s[0], u) {
        FilterMembers(s[1..], probe, u);
      }
    }
  }

  /** The responsive nodes are collected in sorted order. */
  lemma ResponsiveInOrder(c: HealthConfig, m: Statuses, probe: Url -> Observation, down: seq<Url>)
    requires IsListing(down, DownSet(c, m))
    ensures IsListing(Filter(down, probe), Responsive(c, m, probe))
  {
    FilterKeepsOrder(down, probe);
    var r := Filter(down, probe);
    forall u ensures u in Members(r) <==> u in Responsive(c, m, probe) {
      FilterMembers(down, probe, u);
      assert u in down <==> u in Members(down);
    }
  }
}
