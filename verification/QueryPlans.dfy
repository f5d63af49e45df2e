/** Query plans (src/query_plan.cpp): the order in which one request tries the nodes. */
module QueryPlans {
  import opened Urls
  import opened NodeLists
  import GoRandom

  /** A deterministic source of indices: the answer to the last of the requests made since seeding,
      each a number below the bound asked for. */
  type Picker = p: (int, seq<nat>) -> nat | ChoosesBelowBound(p) witness (seed: int, bounds: seq<nat>) => 0

  ghost predicate ChoosesBelowBound(p: (int, seq<nat>) -> nat) {
    forall seed: int, bounds: seq<nat> | bounds != [] && bounds[|bounds| - 1] > 0 ::
      p(seed, bounds) < bounds[|bounds| - 1]
  }

  /** The picker that the library uses. */
  ghost function GoPicker(cooked: GoRandom.Cooked): Picker {
    (seed: int, bounds: seq<nat>) => GoRandom.Answer(GoRandom.SeededTable(cooked, seed), bounds)
  }

  /** The index that `Int31n` draws for a plan is the picker's answer to the requests made so far. */
  method DrawIndex(g: GoRandom.Generator, n: nat, ghost cooked: GoRandom.Cooked, ghost seed: int) returns (i: nat)
    requires g.Valid() && g.table == GoRandom.SeededTable(cooked, seed)
    requires 0 < n < GoRandom.DRAWS && GoRandom.Arrives(g.table, g.drawn, n)
    modifies g, g.vec
    ensures g.Valid() && g.bounds == old(g.bounds) + [n]
    ensures i == GoPicker(cooked)(seed, g.bounds) < n
  {
    var r, _ := g.Int31n(n);
    i := r;
  }

  datatype Plan = Plan(nodes: seq<Url>, seed: int, deterministic: bool, sortNodes: bool,
                       preferred: seq<Url>, prepared: bool, bounds: seq<nat>)

  function NewPlan(nodes: seq<Url>, seed: int, deterministic: bool, sortNodes: bool, preferred: seq<Url>): Plan {
    Plan(nodes, seed, deterministic, sortNodes, preferred, false, [])
  }

  function WithSeed(nodes: seq<Url>, seed: int): Plan {
    NewPlan(nodes, seed, false, false, [])
  }

  function WithSortedSeed(nodes: seq<Url>, seed: int): Plan {
    NewPlan(nodes, seed, false, true, [])
  }

  function WithPreferredNodes(nodes: seq<Url>, preferred: seq<Url>): Plan {
    NewPlan(nodes, 0, true, true, preferred)
  }

  function FromOrderedNodes(nodes: seq<Url>): Plan {
    NewPlan(Collect([], nodes, []), 0, true, false, [])
  }

  function FirstNodeWithSeed(pick: Picker, nodes: seq<Url>, seed: int): Url {
    var sorted := SortAndDedupeNodes(nodes);
    if sorted == [] then NO_URL else sorted[pick(seed, [|sorted|])]
  }

  // ----- One step -----

  function RemoveFirst(s: seq<Url>, u: Url): seq<Url>
    requires u in s
  {
    if s[0] == u then s[1..] else [s[0]] + RemoveFirst(s[1..], u)
  }

  /** Overwrite with the last element, then drop the last. */
  function SwapOut(s: seq<Url>, i: nat): (r: seq<Url>)
    requires i < |s|
    ensures |r| == |s| - 1
  {
    s[i := s[|s| - 1]][..|s| - 1]
  }

  function Prepare(p: Plan): Plan {
    if p.prepared then p
    else p.(prepared := true, nodes := if p.sortNodes then SortNodes(p.nodes) else p.nodes)
  }

  function PickAndRemove(pick: Picker, p: Plan): (Url, Plan)
    requires p.nodes != []
  {
    if p.deterministic then (p.nodes[0], p.(nodes := p.nodes[1..]))
    else
      var bounds := p.bounds + [|p.nodes|];
      var i := pick(p.seed, bounds);
      (p.nodes[i], p.(nodes := SwapOut(p.nodes, i), bounds := bounds))
  }

  /** The preferred nodes are consumed first; those not among the nodes are skipped. */
  function Advance(pick: Picker, p: Plan): (Url, Plan)
    decreases |p.preferred|
  {
    if p.preferred != [] then
      var u, p' := p.preferred[0], p.(preferred := p.preferred[1..]);
      if u.Empty() || u !in p.nodes then Advance(pick, p') else (u, p'.(nodes := RemoveFirst(p.nodes, u)))
    else if p.nodes != [] then PickAndRemove(pick, p)
    else (NO_URL, p)
  }

  function NextOf(pick: Picker, p: Plan): (Url, Plan) {
    Advance(pick, Prepare(p))
  }

  lemma {:induction false} RemoveFirstTakesOne(s: seq<Url>, u: Url)
    requires u in s
    ensures multiset(RemoveFirst(s, u)) == multiset(s) - multiset{u}
  {
    assert s == [s[0]] + s[1..];
    if s[0] != u {
      RemoveFirstTakesOne(s[1..], u);
    }
  }

  lemma SwapOutTakesOne(s: seq<Url>, i: nat)
    requires i < |s|
    ensures multiset(SwapOut(s, i)) == multiset(s) - multiset{s[i]}
  {
    var n := |s| - 1;
    var front, last := s[..n], s[n];
    assert s == front + [last];
    assert multiset(s) == multiset(front) + multiset{last};
    if i < n {
      assert SwapOut(s, i) == front[i := last];
      assert multiset(front[i := last]) == multiset(front) - multiset{front[i]} + multiset{last};
      assert front[i] in multiset(front);
    } else {
      assert SwapOut(s, i) == front;
    }
  }

  lemma {:induction false} AdvanceTakesOne(pick: Picker, p: Plan)
    ensures var (u, p') := Advance(pick, p);
            && (p.nodes == [] ==> u == NO_URL && p'.nodes == [])
            && (p.nodes != [] ==> u in p.nodes && multiset(p'.nodes) == multiset(p.nodes) - multiset{u})
            && p'.prepared == p.prepared
    decreases |p.preferred|
  {
    if p.preferred != [] {
      var u := p.preferred[0];
      if u.Empty() || u !in p.nodes {
        AdvanceTakesOne(pick, p.(preferred := p.preferred[1..]));
      } else {
        RemoveFirstTakesOne(p.nodes, u);
      }
    } else if p.nodes != [] {
      if p.deterministic {
        assert p.nodes == [p.nodes[0]] + p.nodes[1..];
      } else {
        var bounds := p.bounds + [|p.nodes|];
        assert bounds[|bounds| - 1] == |p.nodes|;
        SwapOutTakesOne(p.nodes, pick(p.seed, bounds));
      }
    }
  }

  lemma NextTakesOne(pick: Picker, p: Plan)
    ensures var (u, p') := NextOf(pick, p);
            && (p.nodes == [] ==> u == NO_URL && p'.nodes == [])
            && (p.nodes != [] ==> u in p.nodes && multiset(p'.nodes) == multiset(p.nodes) - multiset{u}
                                  && |p'.nodes| == |p.nodes| - 1)
            && p'.prepared
  {
    var q := Prepare(p);
    SortIsOrderedPermutation(p.nodes);
    assert multiset(q.nodes) == multiset(p.nodes);
    SameMultisetSameMembers(q.nodes, p.nodes);
    assert forall u :: (u in q.nodes <==> u in Members(q.nodes)) && (u in p.nodes <==> u in Members(p.nodes));
    AdvanceTakesOne(pick, q);
    var (u, p') := NextOf(pick, p);
    if p.nodes != [] {
      assert |multiset(p'.nodes)| == |multiset(p.nodes)| - 1;
    }
  }

  // ----- Whole plans -----

  /** The results of k successive calls of `Next`. */
  function Take(pick: Picker, p: Plan, k: nat): (r: seq<Url>)
    ensures |r| == k
    decreases k
  {
    if k == 0 then []
    else
      var (u, p') := NextOf(pick, p);
      [u] + Take(pick, p', k - 1)
  }

  /** The plan after k calls. */
  function After(pick: Picker, p: Plan, k: nat): Plan
    decreases k
  {
    if k == 0 then p else After(pick, NextOf(pick, p).1, k - 1)
  }

  lemma NextSplitsOff(pick: Picker, p: Plan) returns (u: Url, p': Plan)
    requires p.nodes != []
    ensures (u, p') == NextOf(pick, p) && |p.nodes| == |p'.nodes| + 1
    ensures multiset(p.nodes) == multiset{u} + multiset(p'.nodes)
  {
    NextTakesOne(pick, p);
    u, p' := NextOf(pick, p).0, NextOf(pick, p).1;
  }

  lemma TakeOneMore(pick: Picker, p: Plan, u: Url, p': Plan, k: nat)
    requires k > 0 && NextOf(pick, p) == (u, p')
    ensures multiset(Take(pick, p, k)) == multiset{u} + multiset(Take(pick, p', k - 1))
    ensures After(pick, p, k) == After(pick, p', k - 1)
  {
    assert Take(pick, p, k) == [u] + Take(pick, p', k - 1);
  }

  lemma {:induction false} TakeEverything(pick: Picker, p: Plan)
    ensures multiset(Take(pick, p, |p.nodes|)) == multiset(p.nodes)
    ensures After(pick, p, |p.nodes|).nodes == []
    decreases |p.nodes|
  {
    if p.nodes != [] {
      var u, p' := NextSplitsOff(pick, p);
      TakeEverything(pick, p');
      TakeOneMore(pick, p, u, p', |p.nodes|);
    }
  }

  lemma {:induction false} TakeNothing(pick: Picker, p: Plan, k: nat)
    requires p.nodes == []
    ensures forall i | 0 <= i < k :: Take(pick, p, k)[i] == NO_URL
    decreases k
  {
    if k > 0 {
      NextTakesOne(pick, p);
      TakeNothing(pick, NextOf(pick, p).1, k - 1);
    }
  }

  /** In every mode the calls return each input node as often as it occurs in the input,
      and from then on the empty URL forever. */
  lemma PlanIsPermutation(pick: Picker, p: Plan, more: nat)
    ensures multiset(Take(pick, p, |p.nodes|)) == multiset(p.nodes)
    ensures forall i | 0 <= i < more :: Take(pick, After(pick, p, |p.nodes|), more)[i] == NO_URL
  {
    TakeEverything(pick, p);
    TakeNothing(pick, After(pick, p, |p.nodes|), more);
  }

  /** `DrainPlan`: collect until the first empty URL. */
  function Drain(pick: Picker, p: Plan): seq<Url>
    decreases |p.nodes|
  {
    var (u, p') := NextOf(pick, p);
    NextTakesOne(pick, p);
    if u.Empty() then [] else [u] + Drain(pick, p')
  }

  /** Draining returns the whole input exactly when no input node is empty. */
  lemma {:induction false} DrainIsPermutation(pick: Picker, p: Plan)
    ensures multiset(Drain(pick, p)) <= multiset(p.nodes)
    ensures multiset(Drain(pick, p)) == multiset(p.nodes) <==> NoneEmpty(p.nodes)
    ensures NoneEmpty(Drain(pick, p))
    decreases |p.nodes|
  {
    NextTakesOne(pick, p);
    var (u, p') := NextOf(pick, p);
    if u.Empty() {
      if p.nodes != [] {
        assert u in multiset(p.nodes);
      }
    } else {
      DrainIsPermutation(pick, p');
      assert p.nodes != [];
      assert multiset(p.nodes) == multiset(p'.nodes) + multiset{u};
      assert multiset(Drain(pick, p)) == multiset{u} + multiset(Drain(pick, p'));
      NoneEmptyByMultiset(p.nodes, p'.nodes, u);
    }
  }

  lemma NoneEmptyByMultiset(s: seq<Url>, t: seq<Url>, u: Url)
    requires multiset(s) == multiset(t) + multiset{u} && !u.Empty()
    ensures NoneEmpty(s) <==> NoneEmpty(t)
  {
    forall v ensures v in s <==> v in t || v == u {
      assert v in s <==> v in multiset(s);
      assert v in t <==> v in multiset(t);
    }
  }

  lemma DrainMembers(pick: Picker, p: Plan)
    requires NoneEmpty(p.nodes)
    ensures Members(Drain(pick, p)) == Members(p.nodes) && |Drain(pick, p)| == |p.nodes|
    ensures NoRepeats(p.nodes) ==> NoRepeats(Drain(pick, p))
  {
    DrainIsPermutation(pick, p);
    SameMultisetSameMembers(Drain(pick, p), p.nodes);
    MultisetOfDistinct(p.nodes);
    MultisetOfDistinct(Drain(pick, p));
  }

  /** A deterministic plan without preferences returns its nodes in their order. */
  lemma {:induction false} DrainInOrder(pick: Picker, p: Plan)
    requires p.deterministic && p.preferred == [] && (p.prepared || !p.sortNodes) && NoneEmpty(p.nodes)
    ensures Drain(pick, p) == p.nodes
    decreases |p.nodes|
  {
    if p.nodes != [] {
      assert p.nodes == [p.nodes[0]] + p.nodes[1..];
      DrainInOrder(pick, NextOf(pick, p).1);
    }
  }

  lemma DrainOrderedNodes(pick: Picker, nodes: seq<Url>)
    ensures Drain(pick, FromOrderedNodes(nodes)) == Collect([], nodes, [])
    ensures NoRepeats(Collect([], nodes, []))
  {
    CollectSpec([], nodes, []);
    DrainInOrder(pick, FromOrderedNodes(nodes));
  }

  function RemoveAll(s: seq<Url>, gone: seq<Url>): seq<Url>
    decreases |gone|
  {
    if gone == [] then s
    else RemoveAll(if gone[0] in s then RemoveFirst(s, gone[0]) else s, gone[1..])
  }

  /** The preferred nodes that a plan over these nodes honours: the empty ones, and those that are not or no longer
      among the nodes, are skipped. */
  function Honoured(nodes: seq<Url>, preferred: seq<Url>): seq<Url>
    decreases |preferred|
  {
    if preferred == [] then []
    else
      var u, rest := preferred[0], preferred[1..];
      if u.Empty() || u !in nodes then Honoured(nodes, rest) else [u] + Honoured(RemoveFirst(nodes, u), rest)
  }

  /** Each node is honoured as often as it is both preferred and there; the empty URL never. */
  lemma {:induction false} HonouredCounts(nodes: seq<Url>, preferred: seq<Url>, u: Url)
    ensures multiset(Honoured(nodes, preferred))[u] ==
            if u.Empty() then 0
            else if multiset(preferred)[u] <= multiset(nodes)[u] then multiset(preferred)[u]
            else multiset(nodes)[u]
    decreases |preferred|
  {
    if preferred != [] {
      var v, rest := preferred[0], preferred[1..];
      assert preferred == [v] + rest;
      assert multiset(preferred) == multiset{v} + multiset(rest);
      assert v in nodes <==> v in multiset(nodes);
      if v.Empty() || v !in nodes {
        HonouredCounts(nodes, rest, u);
      } else {
        RemoveFirstTakesOne(nodes, v);
        HonouredCounts(RemoveFirst(nodes, v), rest, u);
        var more := Honoured(RemoveFirst(nodes, v), rest);
        assert multiset([v] + more) == multiset{v} + multiset(more);
      }
    }
  }

  /** Preferences that are all there are all honoured. */
  lemma {:induction false} AllHonoured(nodes: seq<Url>, preferred: seq<Url>)
    requires NoneEmpty(preferred) && multiset(preferred) <= multiset(nodes)
    ensures Honoured(nodes, preferred) == preferred
    decreases |preferred|
  {
    if preferred != [] {
      var u, rest := preferred[0], preferred[1..];
      assert preferred == [u] + rest && u in preferred;
      assert multiset(preferred) == multiset{u} + multiset(rest);
      assert u in multiset(nodes);
      RemoveFirstTakesOne(nodes, u);
      assert forall v | v in rest :: v in preferred;
      AllHonoured(RemoveFirst(nodes, u), rest);
    }
  }

  /** The first call on a prepared plan skips to the next preference that it honours. */
  lemma {:induction false} AdvanceHonours(pick: Picker, p: Plan)
    requires p.deterministic
    ensures var honoured := Honoured(p.nodes, p.preferred);
            var (u, q) := Advance(pick, p);
            && q.deterministic && q.prepared == p.prepared
            && (honoured == [] ==>
                q.preferred == []
                && (u, q.nodes) == if p.nodes == [] then (NO_URL, []) else (p.nodes[0], p.nodes[1..]))
            && (honoured != [] ==>
                u == honoured[0] && u in p.nodes && q.nodes == RemoveFirst(p.nodes, u)
                && Honoured(q.nodes, q.preferred) == honoured[1..])
    decreases |p.preferred|
  {
    if p.preferred != [] {
      var u := p.preferred[0];
      if u.Empty() || u !in p.nodes {
        AdvanceHonours(pick, p.(preferred := p.preferred[1..]));
      }
    }
  }

  /** One call takes the next honoured preference, or the first node once there is none. */
  lemma HonouredStep(nodes: seq<Url>, honoured: seq<Url>, u: Url, left: seq<Url>, rest: seq<Url>)
    requires u in nodes
    requires honoured == [] ==> rest == [] && nodes == [u] + left
    requires honoured != [] ==> honoured == [u] + rest && left == RemoveFirst(nodes, u)
    ensures honoured + RemoveAll(nodes, honoured) == [u] + (rest + RemoveAll(left, rest))
  {
    if honoured == [] {
      assert [] + nodes == nodes && [] + left == left;
    } else {
      assert honoured[0] == u && honoured[1..] == rest;
      assert ([u] + rest) + RemoveAll(left, rest) == [u] + (rest + RemoveAll(left, rest));
    }
  }

  lemma {:induction false} TakePrepared(pick: Picker, p: Plan)
    requires p.deterministic && p.prepared
    ensures var honoured := Honoured(p.nodes, p.preferred);
            Take(pick, p, |p.nodes|) == honoured + RemoveAll(p.nodes, honoured)
    decreases |p.nodes|
  {
    if p.nodes != [] {
      NextTakesOne(pick, p);
      AdvanceHonours(pick, p);
      var (u, q) := NextOf(pick, p);
      TakePrepared(pick, q);
      assert Take(pick, p, |q.nodes| + 1) == [u] + Take(pick, q, |q.nodes|);
      HonouredStep(p.nodes, Honoured(p.nodes, p.preferred), u, q.nodes, Honoured(q.nodes, q.preferred));
    } else {
      HonouredAmongNone(p.preferred);
    }
  }

  lemma {:induction false} HonouredAmongNone(preferred: seq<Url>)
    ensures Honoured([], preferred) == []
  {
    if preferred != [] {
      HonouredAmongNone(preferred[1..]);
    }
  }

  /** For any nodes and any preferences, the calls return the preferences that are honoured, in the order given, and
      then the other nodes sorted. */
  lemma TakePreferredNodes(pick: Picker, nodes: seq<Url>, preferred: seq<Url>)
    ensures var honoured := Honoured(SortNodes(nodes), preferred);
            Take(pick, WithPreferredNodes(nodes, preferred), |nodes|) ==
            honoured + RemoveAll(SortNodes(nodes), honoured)
  {
    var p := WithPreferredNodes(nodes, preferred);
    var q := Prepare(p);
    SortIsOrderedPermutation(nodes);
    SameMultisetSameMembers(q.nodes, nodes);
    TakePrepared(pick, q);
    assert NextOf(pick, p) == NextOf(pick, q);
  }

  lemma NextKeepsNoneEmpty(pick: Picker, p: Plan, u: Url, q: Plan)
    requires NoneEmpty(p.nodes) && p.nodes != [] && NextOf(pick, p) == (u, q)
    ensures !u.Empty() && NoneEmpty(q.nodes) && |q.nodes| == |p.nodes| - 1
  {
    NextTakesOne(pick, p);
    assert multiset(p.nodes) == multiset(q.nodes) + multiset{u};
    NoneEmptyByMultiset(p.nodes, q.nodes, u);
  }

  lemma {:induction false} DrainIsTake(pick: Picker, p: Plan)
    requires NoneEmpty(p.nodes)
    ensures Drain(pick, p) == Take(pick, p, |p.nodes|)
    decreases |p.nodes|
  {
    if p.nodes != [] {
      var (u, q) := NextOf(pick, p);
      NextKeepsNoneEmpty(pick, p, u, q);
      DrainIsTake(pick, q);
      assert Take(pick, p, |q.nodes| + 1) == [u] + Take(pick, q, |q.nodes|);
    } else {
      NextTakesOne(pick, p);
    }
  }

  /** So a plan over nodes that are not empty is drained completely in that order. */
  lemma DrainPreferredNodes(pick: Picker, nodes: seq<Url>, preferred: seq<Url>)
    requires NoneEmpty(nodes)
    ensures var honoured := Honoured(SortNodes(nodes), preferred);
            Drain(pick, WithPreferredNodes(nodes, preferred)) == honoured + RemoveAll(SortNodes(nodes), honoured)
  {
    DrainIsTake(pick, WithPreferredNodes(nodes, preferred));
    TakePreferredNodes(pick, nodes, preferred);
  }

  // ----- The seeded order -----

  /** The order of a set of sorted nodes for one seed. */
  function SeededOrder(pick: Picker, nodes: seq<Url>, seed: int): seq<Url> {
    Drain(pick, WithSortedSeed(nodes, seed))
  }

  /** A seeded plan over sorted nodes starts with the node that `FirstNodeWithSeed` names. */
  lemma SeededOrderStartsWithFirst(pick: Picker, nodes: seq<Url>, seed: int)
    requires StrictlyOrdered(nodes) && NoneEmpty(nodes) && nodes != []
    ensures SeededOrder(pick, nodes, seed) != []
    ensures SeededOrder(pick, nodes, seed)[0] == FirstNodeWithSeed(pick, nodes, seed)
    ensures FirstNodeWithSeed(pick, nodes, seed) in nodes
  {
    var p := WithSortedSeed(nodes, seed);
    SortOfStrict(nodes);
    NextTakesOne(pick, p);
    assert [] + [|nodes|] == [|nodes|];
    assert [|nodes|][|[|nodes|]| - 1] == |nodes|;
    assert pick(seed, [|nodes|]) < |nodes|;
    assert NextOf(pick, p).0 == nodes[pick(seed, [|nodes|])];
  }

  // ----- Index draws and permutations -----

  predicate ValidDraws(draws: seq<nat>, n: nat) {
    |draws| == n && forall k | 0 <= k < n :: draws[k] < n - k
  }

  /** Swap-with-last removal driven by a list of index draws. */
  function Shuffle(nodes: seq<Url>, draws: seq<nat>): (r: seq<Url>)
    requires ValidDraws(draws, |nodes|)
    ensures |r| == |nodes|
    decreases |nodes|
  {
    if nodes == [] then []
    else [nodes[draws[0]]] + Shuffle(SwapOut(nodes, draws[0]), draws[1..])
  }

  function IndexOf(s: seq<Url>, u: Url): (i: nat)
    requires u in s
    ensures i < |s| && s[i] == u
  {
    if s[0] == u then 0 else 1 + IndexOf(s[1..], u)
  }

  lemma TakeHead(nodes: seq<Url>, order: seq<Url>)
    requires multiset(order) == multiset(nodes) && nodes != []
    ensures |order| == |nodes| && order[0] in nodes
    ensures multiset(order[1..]) == multiset(SwapOut(nodes, IndexOf(nodes, order[0])))
  {
    SameMultisetSameMembers(order, nodes);
    assert order == [order[0]] + order[1..];
    assert order[0] in multiset(nodes);
    SwapOutTakesOne(nodes, IndexOf(nodes, order[0]));
  }

  ghost function DrawsFor(nodes: seq<Url>, order: seq<Url>): (draws: seq<nat>)
    requires multiset(order) == multiset(nodes)
    ensures ValidDraws(draws, |nodes|)
    decreases |nodes|
  {
    if nodes == [] then []
    else
      TakeHead(nodes, order);
      var i := IndexOf(nodes, order[0]);
      [i] + DrawsFor(SwapOut(nodes, i), order[1..])
  }

  /** Every permutation of the nodes is the outcome of some draws. */
  lemma {:induction false} ShuffleIsOnto(nodes: seq<Url>, order: seq<Url>)
    requires multiset(order) == multiset(nodes)
    ensures Shuffle(nodes, DrawsFor(nodes, order)) == order
    decreases |nodes|
  {
    SameMultisetSameMembers(order, nodes);
    if nodes != [] {
      TakeHead(nodes, order);
      var i := IndexOf(nodes, order[0]);
      var draws := DrawsFor(nodes, order);
      assert draws[1..] == DrawsFor(SwapOut(nodes, i), order[1..]);
      ShuffleIsOnto(SwapOut(nodes, i), order[1..]);
      assert order == [order[0]] + order[1..];
    }
  }

  lemma {:induction false} ShufflePermutes(nodes: seq<Url>, draws: seq<nat>)
    requires ValidDraws(draws, |nodes|)
    ensures multiset(Shuffle(nodes, draws)) == multiset(nodes)
    decreases |nodes|
  {
    if nodes != [] {
      SwapOutTakesOne(nodes, draws[0]);
      ShufflePermutes(SwapOut(nodes, draws[0]), draws[1..]);
      assert nodes[draws[0]] in multiset(nodes);
    }
  }

  lemma SwapOutKeepsDistinct(nodes: seq<Url>, i: nat)
    requires i < |nodes| && NoRepeats(nodes)
    ensures NoRepeats(SwapOut(nodes, i))
  {
    var r, n := SwapOut(nodes, i), |nodes| - 1;
    assert forall k | 0 <= k < n :: r[k] == if k == i then nodes[n] else nodes[k];
  }

  /** For distinct nodes the outcome determines the draws. */
  lemma {:induction false} ShuffleIsOneToOne(nodes: seq<Url>, draws: seq<nat>, other: seq<nat>)
    requires ValidDraws(draws, |nodes|) && ValidDraws(other, |nodes|) && NoRepeats(nodes)
    requires Shuffle(nodes, draws) == Shuffle(nodes, other)
    ensures draws == other
    decreases |nodes|
  {
    if nodes != [] {
      var i := draws[0];
      var r, t := Shuffle(nodes, draws), Shuffle(nodes, other);
      assert r[0] == nodes[i] && t[0] == nodes[other[0]];
      assert i == other[0];
      var rest := SwapOut(nodes, i);
      SwapOutKeepsDistinct(nodes, i);
      assert r[1..] == Shuffle(rest, draws[1..]) && t[1..] == Shuffle(rest, other[1..]);
      ShuffleIsOneToOne(rest, draws[1..], other[1..]);
      assert draws == [i] + draws[1..] && other == [i] + other[1..];
    }
  }

  /** The draws a seeded plan makes from its current state. */
  function DrawsMade(pick: Picker, p: Plan): (draws: seq<nat>)
    ensures ValidDraws(draws, |p.nodes|)
    decreases |p.nodes|
  {
    if p.nodes == [] then []
    else
      var bounds := p.bounds + [|p.nodes|];
      assert bounds[|bounds| - 1] == |p.nodes|;
      var i := pick(p.seed, bounds);
      [i] + DrawsMade(pick, p.(nodes := SwapOut(p.nodes, i), bounds := bounds))
  }

  /** A seeded plan is the shuffle of its prepared nodes by the draws it makes. */
  lemma {:induction false} DrainIsShuffle(pick: Picker, p: Plan)
    requires !p.deterministic && p.preferred == [] && p.prepared && NoneEmpty(p.nodes)
    ensures Drain(pick, p) == Shuffle(p.nodes, DrawsMade(pick, p))
    decreases |p.nodes|
  {
    if p.nodes != [] {
      NextTakesOne(pick, p);
      var (u, p') := NextOf(pick, p);
      assert multiset(p.nodes) == multiset(p'.nodes) + multiset{u};
      assert u in p.nodes;
      NoneEmptyByMultiset(p.nodes, p'.nodes, u);
      DrainIsShuffle(pick, p');
      assert DrawsMade(pick, p)[1..] == DrawsMade(pick, p');
    }
  }

  /** What is left of s after a draw of i: the last node has moved into the hole, and nothing else has moved. */
  ghost predicate LastFillsTheHole(s: seq<Url>, i: nat, t: seq<Url>) {
    && |t| == |s| - 1
    && (i < |t| ==> t[i] == s[|s| - 1])
    && forall k | 0 <= k < |t| && k != i :: t[k] == s[k]
  }

  /** One call on a plan in random order: the drawn node is returned, and the last node takes its place. */
  lemma NextFillsTheHole(pick: Picker, p: Plan)
    requires !p.deterministic && p.preferred == [] && p.nodes != []
    ensures var s := if p.prepared || !p.sortNodes then p.nodes else SortNodes(p.nodes);
            var i := pick(p.seed, p.bounds + [|s|]);
            var (u, q) := NextOf(pick, p);
            && |s| == |p.nodes| && i < |s| && u == s[i]
            && LastFillsTheHole(s, i, q.nodes)
            && q == p.(nodes := q.nodes, prepared := true, bounds := p.bounds + [|s|])
  {
    SortKeepsLength(p.nodes);
    var q := Prepare(p);
    var n := |q.nodes|;
    BelowBound(pick, p.seed, p.bounds, n);
    AdvanceByDraw(pick, q, pick(p.seed, p.bounds + [n]));
    SwapOutFillsTheHole(q.nodes, pick(p.seed, p.bounds + [n]));
  }

  lemma SortKeepsLength(s: seq<Url>)
    ensures |SortNodes(s)| == |s|
  {
    SortIsOrderedPermutation(s);
    SameMultisetSameMembers(SortNodes(s), s);
  }

  lemma BelowBound(pick: Picker, seed: int, bounds: seq<nat>, n: nat)
    requires n > 0
    ensures pick(seed, bounds + [n]) < n
  {
    var all := bounds + [n];
    assert all[|all| - 1] == n;
  }

  lemma SwapOutFillsTheHole(s: seq<Url>, i: nat)
    requires i < |s|
    ensures LastFillsTheHole(s, i, SwapOut(s, i))
  {
  }

  /** So the first two draws decide the first two results. */
  lemma FirstTwoResults(pick: Picker, nodes: seq<Url>, seed: int)
    requires |nodes| >= 2
    ensures var n := |nodes|;
            var i, j := pick(seed, [n]), pick(seed, [n, n - 1]);
            && i < n && j < n - 1
            && Take(pick, WithSeed(nodes, seed), 2) == [nodes[i], nodes[if j == i then n - 1 else j]]
  {
    var p, n := WithSeed(nodes, seed), |nodes|;
    NextFillsTheHole(pick, p);
    assert [] + [n] == [n] && [n] + [n - 1] == [n, n - 1];
    var (u, q) := NextOf(pick, p);
    NextFillsTheHole(pick, q);
    TakeTwo(pick, p, u, q);
  }

  lemma TakeTwo(pick: Picker, p: Plan, u: Url, q: Plan)
    requires NextOf(pick, p) == (u, q)
    ensures Take(pick, p, 2) == [u, NextOf(pick, q).0]
  {
    var (v, r) := NextOf(pick, q);
    assert Take(pick, r, 0) == [];
    assert Take(pick, q, 1) == [v] + Take(pick, r, 0);
    assert Take(pick, p, 2) == [u] + Take(pick, q, 1);
  }

  // ----- The plan object -----

  class QueryPlan {
    const pick: Picker
    const seed: int
    const deterministic: bool
    const sortNodes: bool
    var nodes: seq<Url>
    var preferred: seq<Url>
    var prepared: bool
    var bounds: seq<nat>     // what has been asked of the generator; empty until it is created

    ghost function View(): Plan
      reads this
    {
      Plan(nodes, seed, deterministic, sortNodes, preferred, prepared, bounds)
    }

    constructor (pick: Picker, p: Plan)
      ensures View() == p && this.pick == pick
    {
      this.pick := pick;
      seed, deterministic, sortNodes := p.seed, p.deterministic, p.sortNodes;
      nodes, preferred, prepared, bounds := p.nodes, p.preferred, p.prepared, p.bounds;
    }

    method PopNode(target: Url) returns (found: bool)
      modifies this`nodes
      ensures found == (target in old(nodes))
      ensures nodes == if found then RemoveFirst(old(nodes), target) else old(nodes)
      ensures found ==> exists i: nat :: i < old(|nodes|) && old(nodes)[i] == target && target !in old(nodes)[..i]
                                         && nodes == old(nodes)[..i] + old(nodes)[i + 1..]
    {
      var i := 0;
      while i < |nodes| && nodes[i] != target
        invariant 0 <= i <= |nodes| && target !in nodes[..i] && nodes == old(nodes)
      {
        i := i + 1;
      }
      found := i < |nodes|;
      if found {
        RemoveFirstAt(nodes, target, i);
        nodes := nodes[..i] + nodes[i + 1..];
      } else {
        assert nodes[..i] == nodes;
      }
    }

    method Next() returns (u: Url)
      modifies this
      ensures (u, View()) == NextOf(pick, old(View()))
    {
      if !prepared {
        prepared := true;
        if sortNodes {
          nodes := SortNodes(nodes);
        }
      }
      assert View() == Prepare(old(View()));
      while preferred != []
        invariant Advance(pick, View()) == NextOf(pick, old(View()))
        decreases |preferred|
      {
        var target := preferred[0];
        preferred := preferred[1..];
        if target.Empty() {
          continue;
        }
        var found := PopNode(target);
        if found {
          return target;
        }
      }
      if nodes == [] {
        return NO_URL;
      }
      if deterministic {
        u := nodes[0];
        nodes := nodes[1..];
      } else {
        bounds := bounds + [|nodes|];
        assert bounds[|bounds| - 1] == |nodes|;
        var i := pick(seed, bounds);
        u := nodes[i];
        nodes := nodes[i := nodes[|nodes| - 1]];
        nodes := nodes[..|nodes| - 1];
      }
    }
  }

  /** A plan in random order with the generator it draws from, which is created at the first draw. */
  class SeededPlan {
    const cooked: GoRandom.Cooked
    const seed: int
    const sortNodes: bool
    var nodes: seq<Url>
    var prepared: bool
    var generator: GoRandom.Generator?
    ghost var bounds: seq<nat>

    ghost function View(): Plan
      reads this
    {
      Plan(nodes, seed, false, sortNodes, [], prepared, bounds)
    }

    ghost function Repr(): set<object>
      reads this
    {
      {this} + if generator == null then {} else {generator, generator.vec}
    }

    /** The generator has answered exactly the requests that the plan made. */
    ghost predicate Valid()
      reads Repr()
    {
      if generator == null then bounds == []
      else generator.Valid() && generator.table == GoRandom.SeededTable(cooked, seed) && generator.bounds == bounds
    }

    constructor (cooked: GoRandom.Cooked, nodes: seq<Url>, seed: int, sortNodes: bool)
      ensures Valid() && generator == null && this.cooked == cooked
      ensures View() == NewPlan(nodes, seed, false, sortNodes, [])
    {
      this.cooked, this.nodes, this.seed, this.sortNodes := cooked, nodes, seed, sortNodes;
      prepared, generator, bounds := false, null, [];
    }

    /** An index below n for the next pick. */
    method Draw(n: nat) returns (i: nat)
      requires Valid() && 0 < n < GoRandom.DRAWS
      requires DrawArrives(cooked, seed, bounds, n)
      modifies Repr()
      ensures Valid() && fresh(Repr() - old(Repr()))
      ensures nodes == old(nodes) && prepared == old(prepared)
      ensures bounds == old(bounds) + [n] && i == GoPicker(cooked)(seed, bounds) < n
    {
      if generator == null {
        generator := new GoRandom.Generator(cooked, seed);
      }
      i := DrawIndex(generator, n, cooked, seed);
      bounds := bounds + [n];
    }

    method PrepareNodes()
      requires Valid()
      modifies this`nodes, this`prepared
      ensures Valid() && View() == Prepare(old(View())) && |nodes| == old(|nodes|)
    {
      if !prepared {
        prepared := true;
        if sortNodes {
          SortIsOrderedPermutation(nodes);
          SameMultisetSameMembers(nodes, SortNodes(nodes));
          nodes := SortNodes(nodes);
        }
      }
    }

    /** One step of the plan function with the library's generator. */
    method Next() returns (u: Url)
      requires Valid() && |nodes| < GoRandom.DRAWS
      requires nodes != [] ==> DrawArrives(cooked, seed, bounds, |nodes|)
      modifies Repr()
      ensures Valid() && fresh(Repr() - old(Repr())) && (u, View()) == NextOf(GoPicker(cooked), old(View()))
      ensures old(prepared) && old(nodes) != [] ==>
              && GoPicker(cooked)(seed, bounds) < old(|nodes|) && u == old(nodes)[GoPicker(cooked)(seed, bounds)]
              && LastFillsTheHole(old(nodes), GoPicker(cooked)(seed, bounds), nodes)
    {
      ghost var p := View();
      u := Perform();
      if p.prepared && p.nodes != [] {
        NextFillsTheHole(GoPicker(cooked), p);
      }
    }

    method Perform() returns (u: Url)
      requires Valid() && |nodes| < GoRandom.DRAWS
      requires nodes != [] ==> DrawArrives(cooked, seed, bounds, |nodes|)
      modifies Repr()
      ensures Valid() && fresh(Repr() - old(Repr())) && (u, View()) == NextOf(GoPicker(cooked), old(View()))
    {
      PrepareNodes();
      if nodes == [] {
        return NO_URL;
      }
      u := PickAndRemove();
    }

    method PickAndRemove() returns (u: Url)
      requires Valid() && nodes != [] && |nodes| < GoRandom.DRAWS && DrawArrives(cooked, seed, bounds, |nodes|)
      modifies Repr()
      ensures Valid() && fresh(Repr() - old(Repr())) && (u, View()) == Advance(GoPicker(cooked), old(View()))
    {
      var i := Draw(|nodes|);
      AdvanceByDraw(GoPicker(cooked), old(View()), i);
      u := SwapOutAt(i);
    }

    method SwapOutAt(i: nat) returns (u: Url)
      requires i < |nodes|
      modifies this`nodes
      ensures u == old(nodes[i]) && nodes == SwapOut(old(nodes), i)
    {
      u := nodes[i];
      nodes := nodes[i := nodes[|nodes| - 1]];
      nodes := nodes[..|nodes| - 1];
    }
  }

  lemma AdvanceByDraw(pick: Picker, p: Plan, i: nat)
    requires !p.deterministic && p.preferred == [] && p.nodes != []
    requires i == pick(p.seed, p.bounds + [|p.nodes|]) < |p.nodes|
    ensures Advance(pick, p) ==
            (p.nodes[i], p.(nodes := SwapOut(p.nodes, i), bounds := p.bounds + [|p.nodes|]))
  {
  }

  /** After these requests some draw is accepted for n. */
  ghost predicate DrawArrives(cooked: GoRandom.Cooked, seed: int, bounds: seq<nat>, n: nat)
    requires n > 0
  {
    var table := GoRandom.SeededTable(cooked, seed);
    GoRandom.Arrives(table, GoRandom.Position(table, bounds), n)
  }

  lemma {:induction false} RemoveFirstAt(s: seq<Url>, u: Url, i: nat)
    requires i < |s| && s[i] == u && u !in s[..i]
    ensures RemoveFirst(s, u) == s[..i] + s[i + 1..]
  {
    if i == 0 {
      assert s[..i] + s[i + 1..] == s[1..];
    } else {
      assert s[0] in s[..i];
      assert s[1..][..i - 1] == s[..i][1..];
      RemoveFirstAt(s[1..], u, i - 1);
      assert s[..i] == [s[0]] + s[1..][..i - 1];
    }
  }

  method DrainPlan(plan: QueryPlan) returns (r: seq<Url>)
    modifies plan
    ensures r == Drain(plan.pick, old(plan.View()))
  {
    r := [];
    NextTakesOne(plan.pick, plan.View());
    var u := plan.Next();
    while !u.Empty()
      invariant r + (if u.Empty() then [] else [u] + Drain(plan.pick, plan.View())) ==
                Drain(plan.pick, old(plan.View()))
      decreases !u.Empty(), |plan.nodes|
    {
      r := r + [u];
      NextTakesOne(plan.pick, plan.View());
      u := plan.Next();
    }
  }
}
