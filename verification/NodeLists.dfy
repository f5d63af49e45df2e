/** Lists of node URLs: sorting and deduplication (src/query_plan.cpp) and the
    order-preserving "append what is missing" loops shared by the planners. */
module NodeLists {
  import opened Urls

  function Members(s: seq<Url>): set<Url> {
    set u | u in s
  }

  ghost predicate AllWellFormed(nodes: set<Url>) {
    forall u | u in nodes :: u.WellFormed()
  }

  /** No two different URLs of the set print alike. */
  ghost predicate TextIdentifies(nodes: set<Url>) {
    forall u, v | u in nodes && v in nodes && u.ToString() == v.ToString() :: u == v
  }

  lemma WellFormedTextIdentifies(nodes: set<Url>)
    requires AllWellFormed(nodes)
    ensures TextIdentifies(nodes)
  {
    forall u, v | u in nodes && v in nodes && u.ToString() == v.ToString() ensures u == v {
      ToStringIsInjective(u, v);
    }
  }

  predicate NoRepeats(s: seq<Url>) {
    forall i, j | 0 <= i < j < |s| :: s[i] != s[j]
  }

  predicate NoneEmpty(s: seq<Url>) {
    forall u | u in s :: !u.Empty()
  }

  // ----- Sorting -----

  predicate Ordered(s: seq<Url>) {
    s == [] || ((forall u | u in s[1..] :: !Less(u, s[0])) && Ordered(s[1..]))
  }

  predicate StrictlyOrdered(s: seq<Url>) {
    s == [] || ((forall u | u in s[1..] :: Less(s[0], u)) && StrictlyOrdered(s[1..]))
  }

  function Insert(u: Url, s: seq<Url>): seq<Url> {
    if s == [] || Less(u, s[0]) then [u] + s else [s[0]] + Insert(u, s[1..])
  }

  /** `std::sort` by `operator<`. */
  function SortNodes(s: seq<Url>): seq<Url> {
    if s == [] then [] else Insert(s[0], SortNodes(s[1..]))
  }

  /** `std::unique` followed by `erase`. */
  function DropAdjacentRepeats(s: seq<Url>): seq<Url> {
    if |s| <= 1 then s
    else if s[0] == s[1] then DropAdjacentRepeats(s[1..])
    else [s[0]] + DropAdjacentRepeats(s[1..])
  }

  function SortAndDedupeNodes(nodes: seq<Url>): seq<Url> {
    DropAdjacentRepeats(SortNodes(nodes))
  }

  lemma NotLessIsTransitive(u: Url, v: Url, w: Url)
    requires !Less(v, u) && !Less(w, v)
    ensures !Less(w, u)
    ensures u.ToString() != v.ToString() ==> Less(u, w)
  {
    TextTrichotomy(u.ToString(), v.ToString());
    TextTrichotomy(v.ToString(), w.ToString());
    TextTrichotomy(u.ToString(), w.ToString());
    if Less(u, v) && Less(v, w) {
      TextTransitive(u.ToString(), v.ToString(), w.ToString());
    }
  }

  lemma {:induction false} InsertKeepsOrder(u: Url, s: seq<Url>)
    requires Ordered(s)
    ensures Ordered(Insert(u, s))
    ensures multiset(Insert(u, s)) == multiset(s) + multiset{u}
  {
    if s != [] {
      assert s == [s[0]] + s[1..];
      if Less(u, s[0]) {
        TextTrichotomy(u.ToString(), s[0].ToString());
        forall v | v in s ensures !Less(v, u) {
          if v != s[0] { NotLessIsTransitive(u, s[0], v); }
        }
        assert ([u] + s)[1..] == s;
      } else {
        InsertKeepsOrder(u, s[1..]);
        var r := Insert(u, s[1..]);
        assert ([s[0]] + r)[1..] == r;
        forall v | v in r ensures !Less(v, s[0]) {
          assert v in multiset(r);
          assert v in multiset(s[1..]) || v == u;
        }
      }
    }
  }

  lemma {:induction false} SortIsOrderedPermutation(s: seq<Url>)
    ensures Ordered(SortNodes(s))
    ensures multiset(SortNodes(s)) == multiset(s)
  {
    if s != [] {
      assert s == [s[0]] + s[1..];
      SortIsOrderedPermutation(s[1..]);
      InsertKeepsOrder(s[0], SortNodes(s[1..]));
    }
  }

  lemma SameMultisetSameMembers(s: seq<Url>, t: seq<Url>)
    requires multiset(s) == multiset(t)
    ensures Members(s) == Members(t) && |s| == |t|
  {
    assert |s| == |multiset(s)| && |t| == |multiset(t)|;
    forall u ensures u in Members(s) <==> u in Members(t) {
      assert u in s <==> u in multiset(s);
      assert u in t <==> u in multiset(t);
    }
  }

  lemma {:induction false} DropKeepsMembers(s: seq<Url>)
    ensures Members(DropAdjacentRepeats(s)) == Members(s)
    ensures s != [] ==> DropAdjacentRepeats(s) != [] && DropAdjacentRepeats(s)[0] == s[0]
  {
    if |s| > 1 {
      DropKeepsMembers(s[1..]);
      var r := DropAdjacentRepeats(s[1..]);
      forall u ensures u in r <==> u in s[1..] {
        assert u in Members(r) <==> u in Members(s[1..]);
      }
      assert s == [s[0]] + s[1..];
    }
  }

  lemma {:induction false} DropMakesStrict(s: seq<Url>)
    requires Ordered(s) && TextIdentifies(Members(s))
    ensures StrictlyOrdered(DropAdjacentRepeats(s))
  {
    if |s| > 1 {
      assert Members(s[1..]) <= Members(s);
      DropMakesStrict(s[1..]);
      DropKeepsMembers(s[1..]);
      var r := DropAdjacentRepeats(s[1..]);
      if s[0] != s[1] {
        assert s[0] in Members(s) && s[1] in Members(s);
        assert ([s[0]] + r)[1..] == r;
        forall v | v in r ensures Less(s[0], v) {
          assert v in Members(r);
          assert v in Members(s[1..]);
          TextTrichotomy(s[1].ToString(), v.ToString());
          if v != s[1] { assert v in s[1..][1..]; }
          assert s[1] in s[1..];
          NotLessIsTransitive(s[0], s[1], v);
        }
      }
    }
  }

  lemma {:induction false} StrictMeansDistinctTexts(s: seq<Url>)
    requires StrictlyOrdered(s)
    ensures NoRepeats(s) && TextIdentifies(Members(s))
  {
    if s != [] {
      StrictMeansDistinctTexts(s[1..]);
      forall v | v in s[1..] ensures v.ToString() != s[0].ToString() {
        TextTrichotomy(s[0].ToString(), v.ToString());
      }
      assert s == [s[0]] + s[1..];
      forall i, j | 0 <= i < j < |s| ensures s[i] != s[j] {
        assert s[j] == s[1..][j - 1] && s[j] in s[1..];
        if i > 0 { assert s[i] == s[1..][i - 1]; }
      }
      forall u, v | u in Members(s) && v in Members(s) && u.ToString() == v.ToString() ensures u == v {
        if u in s[1..] && v in s[1..] {
          assert u in Members(s[1..]) && v in Members(s[1..]);
        }
      }
    }
  }

  /** The list has exactly the input's members, and it is strictly sorted, hence free of
      repeats, exactly when no two different input URLs print alike. */
  lemma SortAndDedupeIsStrict(nodes: seq<Url>)
    ensures Members(SortAndDedupeNodes(nodes)) == Members(nodes)
    ensures StrictlyOrdered(SortAndDedupeNodes(nodes)) <==> TextIdentifies(Members(nodes))
  {
    var sorted := SortNodes(nodes);
    SortIsOrderedPermutation(nodes);
    SameMultisetSameMembers(nodes, sorted);
    DropKeepsMembers(sorted);
    if TextIdentifies(Members(nodes)) {
      DropMakesStrict(sorted);
    }
    if StrictlyOrdered(SortAndDedupeNodes(nodes)) {
      StrictMeansDistinctTexts(SortAndDedupeNodes(nodes));
    }
  }

  lemma {:induction false} StrictOrderIsUnique(s: seq<Url>, t: seq<Url>)
    requires StrictlyOrdered(s) && StrictlyOrdered(t) && Members(s) == Members(t)
    ensures s == t
  {
    assert s != [] ==> s[0] in Members(s);
    assert t != [] ==> t[0] in Members(t);
    if s != [] {
      assert s[0] in Members(t) && t[0] in Members(s);
      TextTrichotomy(s[0].ToString(), t[0].ToString());
      assert s == [s[0]] + s[1..] && t == [t[0]] + t[1..];
      assert s[0] == t[0];
      StrictMeansDistinctTexts(s);
      StrictMeansDistinctTexts(t);
      assert Members(s[1..]) == Members(s) - {s[0]};
      assert Members(t[1..]) == Members(t) - {t[0]};
      StrictOrderIsUnique(s[1..], t[1..]);
    }
  }

  /** For well-formed nodes the sorted list depends only on the set of nodes, not on order or repeats. */
  lemma SortAndDedupeDependsOnMembers(a: seq<Url>, b: seq<Url>)
    requires Members(a) == Members(b) && TextIdentifies(Members(a))
    ensures SortAndDedupeNodes(a) == SortAndDedupeNodes(b)
    ensures NoRepeats(SortAndDedupeNodes(a))
  {
    SortAndDedupeIsStrict(a);
    SortAndDedupeIsStrict(b);
    StrictMeansDistinctTexts(SortAndDedupeNodes(a));
    StrictOrderIsUnique(SortAndDedupeNodes(a), SortAndDedupeNodes(b));
  }

  lemma {:induction false} InsertIntoStrict(u: Url, s: seq<Url>)
    requires StrictlyOrdered([u] + s)
    ensures Insert(u, s) == [u] + s
  {
    assert ([u] + s)[1..] == s;
    if s != [] { assert s[0] in s; }
  }

  /** A strictly sorted list is left as it is. */
  lemma {:induction false} SortOfStrict(s: seq<Url>)
    requires StrictlyOrdered(s)
    ensures SortNodes(s) == s && SortAndDedupeNodes(s) == s
  {
    if s != [] {
      SortOfStrict(s[1..]);
      assert s == [s[0]] + s[1..];
      InsertIntoStrict(s[0], s[1..]);
      if |s| > 1 {
        assert s[1] in s[1..];
        TextTrichotomy(s[0].ToString(), s[1].ToString());
      }
    }
  }

  lemma {:induction false} DropOfDistinct(s: seq<Url>)
    requires NoRepeats(s)
    ensures DropAdjacentRepeats(s) == s
  {
    if |s| > 1 {
      DropOfDistinct(s[1..]);
      assert s == [s[0]] + s[1..];
    }
  }

  lemma NoRepeatsCons(s: seq<Url>)
    requires s != []
    ensures NoRepeats(s) <==> s[0] !in s[1..] && NoRepeats(s[1..])
  {
    assert forall i | 0 <= i < |s[1..]| :: s[1..][i] == s[i + 1];
    forall i, j | s[0] !in s[1..] && NoRepeats(s[1..]) && 0 <= i < j < |s| ensures s[i] != s[j] {
      assert s[j] == s[1..][j - 1] && s[j] in s[1..];
    }
  }

  lemma {:induction false} MultisetOfDistinct(s: seq<Url>)
    ensures NoRepeats(s) <==> forall u :: multiset(s)[u] <= 1
  {
    if s != [] {
      MultisetOfDistinct(s[1..]);
      assert s == [s[0]] + s[1..];
      assert multiset(s) == multiset{s[0]} + multiset(s[1..]);
      assert s[0] in s[1..] <==> multiset(s[1..])[s[0]] > 0;
      assert forall u :: multiset(s)[u] == multiset(s[1..])[u] + if u == s[0] then 1 else 0;
      NoRepeatsCons(s);
    }
  }

  /** Sorting a list without repeats already gives the deduplicated sorted list. */
  lemma SortOfDistinct(s: seq<Url>)
    requires NoRepeats(s)
    ensures SortNodes(s) == SortAndDedupeNodes(s)
  {
    SortIsOrderedPermutation(s);
    MultisetOfDistinct(s);
    MultisetOfDistinct(SortNodes(s));
    DropOfDistinct(SortNodes(s));
  }

  lemma {:induction false} SuffixIsStrict(s: seq<Url>, i: nat)
    requires StrictlyOrdered(s) && i <= |s|
    ensures StrictlyOrdered(s[i..])
    decreases i
  {
    if i == 0 {
      assert s[0..] == s;
    } else {
      SuffixIsStrict(s, i - 1);
      assert s[i - 1..][1..] == s[i..];
    }
  }

  lemma StrictlyOrderedPairs(s: seq<Url>, i: nat, j: nat)
    requires StrictlyOrdered(s) && i < j < |s|
    ensures Less(s[i], s[j])
  {
    SuffixIsStrict(s, i);
    HeadIsLess(s[i..], j - i);
  }

  lemma HeadIsLess(s: seq<Url>, k: nat)
    requires StrictlyOrdered(s) && 0 < k < |s|
    ensures Less(s[0], s[k])
  {
    assert s[k] == s[1..][k - 1];
    assert s[k] in s[1..];
  }

  /** A strictly sorted list is in dictionary order of its texts. */
  lemma SortedByText(nodes: seq<Url>, i: nat, j: nat)
    requires TextIdentifies(Members(nodes)) && i < j < |SortAndDedupeNodes(nodes)|
    ensures var r := SortAndDedupeNodes(nodes); ComesBefore(r[i].ToString(), r[j].ToString())
  {
    var r := SortAndDedupeNodes(nodes);
    SortAndDedupeIsStrict(nodes);
    StrictlyOrderedPairs(r, i, j);
    LessIsTextOrder(r[i], r[j]);
  }

  // ----- The sorted list of a set -----

  ghost function Listing(nodes: set<Url>): (s: seq<Url>)
    ensures Members(s) == nodes
  {
    if nodes == {} then []
    else
      var u :| u in nodes;
      var rest := Listing(nodes - {u});
      assert forall v :: v in rest <==> v in Members(rest);
      [u] + rest
  }

  lemma SortedListExists(nodes: set<Url>) returns (s: seq<Url>)
    requires AllWellFormed(nodes)
    ensures StrictlyOrdered(s) && NoRepeats(s) && NoneEmpty(s) && Members(s) == nodes
  {
    s := SortAndDedupeNodes(Listing(nodes));
    WellFormedTextIdentifies(nodes);
    SortAndDedupeIsStrict(Listing(nodes));
    StrictMeansDistinctTexts(s);
    assert forall u | u in s :: u in Members(s);
  }

  /** The one strictly sorted list of a set of well-formed nodes; otherwise some list of the set. */
  ghost function InOrder(nodes: set<Url>): (s: seq<Url>)
    ensures Members(s) == nodes && (s == [] <==> nodes == {})
    ensures AllWellFormed(nodes) ==> StrictlyOrdered(s) && NoRepeats(s) && NoneEmpty(s)
  {
    assert exists s :: Members(s) == nodes
                       && (AllWellFormed(nodes) ==> StrictlyOrdered(s) && NoRepeats(s) && NoneEmpty(s)) by {
      var s := Listing(nodes);
      if AllWellFormed(nodes) { s := SortedListExists(nodes); }
      assert Members(s) == nodes && (AllWellFormed(nodes) ==> StrictlyOrdered(s) && NoRepeats(s) && NoneEmpty(s));
    }
    var s :| Members(s) == nodes && (AllWellFormed(nodes) ==> StrictlyOrdered(s) && NoRepeats(s) && NoneEmpty(s));
    assert s != [] ==> s[0] in Members(s);
    s
  }

  lemma InOrderOfMembers(s: seq<Url>)
    requires AllWellFormed(Members(s))
    ensures SortAndDedupeNodes(s) == InOrder(Members(s))
  {
    WellFormedTextIdentifies(Members(s));
    SortAndDedupeIsStrict(s);
    StrictOrderIsUnique(SortAndDedupeNodes(s), InOrder(Members(s)));
  }

  // ----- Appending what is missing -----

  /** The nodes of `nodes` not yet in `out` and not in `present`, in first-seen order, after `out`. */
  function Collect(out: seq<Url>, nodes: seq<Url>, present: seq<Url>): seq<Url>
    decreases |nodes|
  {
    if nodes == [] then out
    else
      var u := nodes[0];
      Collect(if u.Empty() || u in present || u in out then out else out + [u], nodes[1..], present)
  }

  lemma {:induction false} CollectSpec(out: seq<Url>, nodes: seq<Url>, present: seq<Url>)
    ensures out <= Collect(out, nodes, present)
    ensures NoRepeats(out) ==> NoRepeats(Collect(out, nodes, present))
    ensures forall u :: u in Collect(out, nodes, present) <==>
                        u in out || (u in nodes && !u.Empty() && u !in present)
    decreases |nodes|
  {
    if nodes != [] {
      var u := nodes[0];
      var out' := if u.Empty() || u in present || u in out then out else out + [u];
      assert nodes == [u] + nodes[1..];
      CollectSpec(out', nodes[1..], present);
    }
  }

  /** Appending two lists in turn is appending their concatenation, so nodes come in first-seen order. */
  lemma {:induction false} CollectComposes(out: seq<Url>, a: seq<Url>, b: seq<Url>, present: seq<Url>)
    ensures Collect(out, a + b, present) == Collect(Collect(out, a, present), b, present)
    ensures Collect(out, a, present) <= Collect(out, a + b, present)
    decreases |a|
  {
    CollectSpec(Collect(out, a, present), b, present);
    if a == [] {
      assert a + b == b;
    } else {
      var u := a[0];
      assert (a + b)[1..] == a[1..] + b;
      CollectComposes(if u.Empty() || u in present || u in out then out else out + [u], a[1..], b, present);
    }
  }

  /** Appending fresh, distinct, non-empty nodes is plain concatenation. */
  lemma {:induction false} CollectFresh(out: seq<Url>, nodes: seq<Url>, present: seq<Url>)
    requires NoRepeats(nodes) && NoneEmpty(nodes)
    requires forall u | u in nodes :: u !in out && u !in present
    ensures Collect(out, nodes, present) == out + nodes
    decreases |nodes|
  {
    if nodes != [] {
      assert nodes[0] in nodes;
      assert nodes == [nodes[0]] + nodes[1..];
      forall u | u in nodes[1..] ensures u !in out + [nodes[0]] {
        var i :| 0 <= i < |nodes[1..]| && nodes[1..][i] == u;
        assert nodes[i + 1] == u && u in nodes;
      }
      CollectFresh(out + [nodes[0]], nodes[1..], present);
      assert out + [nodes[0]] + nodes[1..] == out + nodes;
    } else {
      assert out + nodes == out;
    }
  }

  lemma {:induction false} CollectShift(a: seq<Url>, b: seq<Url>, nodes: seq<Url>, present: seq<Url>)
    ensures Collect(a + b, nodes, present) == a + Collect(b, nodes, present + a)
    decreases |nodes|
  {
    if nodes != [] {
      var u := nodes[0];
      if !(u.Empty() || u in present || u in a + b) {
        assert (a + b) + [u] == a + (b + [u]);
        CollectShift(a, b + [u], nodes[1..], present);
      } else {
        CollectShift(a, b, nodes[1..], present);
      }
    }
  }

  /** Appending to a list is appending the nodes that the list does not have. */
  lemma CollectOnto(a: seq<Url>, nodes: seq<Url>)
    ensures Collect(a, nodes, []) == a + Collect([], nodes, a)
  {
    CollectShift(a, [], nodes, []);
    assert a + [] == a && [] + a == a;
  }

  lemma {:induction false} CollectKeepsOrder(nodes: seq<Url>, present: seq<Url>)
    requires StrictlyOrdered(nodes)
    ensures StrictlyOrdered(Collect([], nodes, present))
  {
    if nodes != [] {
      var u, rest := nodes[0], Collect([], nodes[1..], present);
      CollectKeepsOrder(nodes[1..], present);
      StrictMeansDistinctTexts(nodes);
      NoRepeatsCons(nodes);
      if !(u.Empty() || u in present) {
        assert [] + [u] == [u];
        CollectShift([u], [], nodes[1..], present);
        assert [u] + [] == [u];
        CollectWithout(nodes[1..], present, u);
        assert Collect([], nodes, present) == [u] + rest;
        CollectSpec([], nodes[1..], present);
        assert ([u] + rest)[1..] == rest;
      }
    }
  }

  lemma {:induction false} CollectWithout(nodes: seq<Url>, present: seq<Url>, u: Url)
    requires u !in nodes
    ensures Collect([], nodes, present + [u]) == Collect([], nodes, present)
  {
    CollectSameTest([], nodes, present + [u], present);
  }

  lemma {:induction false} CollectSameTest(out: seq<Url>, nodes: seq<Url>, p: seq<Url>, q: seq<Url>)
    requires forall u | u in nodes :: u in p <==> u in q
    ensures Collect(out, nodes, p) == Collect(out, nodes, q)
    decreases |nodes|
  {
    if nodes != [] {
      assert nodes[0] in nodes;
      var u := nodes[0];
      CollectSameTest(if u.Empty() || u in p || u in out then out else out + [u], nodes[1..], p, q);
    }
  }

  /** Visits the keys of an associative container, in whatever order it keeps them. */
  method Enumerate(nodes: set<Url>) returns (r: seq<Url>)
    ensures NoRepeats(r) && Members(r) == nodes
  {
    var rest := nodes;
    r := [];
    while rest != {}
      invariant NoRepeats(r) && Members(r) !! rest && Members(r) + rest == nodes
      decreases |rest|
    {
      var u :| u in rest;
      assert u !in r by { assert u !in Members(r); }
      assert Members(r + [u]) == Members(r) + {u};
      r := r + [u];
      rest := rest - {u};
    }
  }

  /** `AppendMissingNodes` and `AppendUniqueNodes`. */
  method AppendMissingNodes(out: seq<Url>, nodes: seq<Url>) returns (r: seq<Url>)
    ensures r == Collect(out, nodes, [])
  {
    r := out;
    for i := 0 to |nodes|
      invariant Collect(r, nodes[i..], []) == Collect(out, nodes, [])
    {
      assert nodes[i..][0] == nodes[i] && nodes[i..][1..] == nodes[i + 1..];
      if !nodes[i].Empty() && nodes[i] !in r {
        r := r + [nodes[i]];
      }
    }
  }

  method NodesMissingFrom(nodes: seq<Url>, present: seq<Url>) returns (r: seq<Url>)
    ensures r == Collect([], nodes, present)
  {
    r := [];
    for i := 0 to |nodes|
      invariant Collect(r, nodes[i..], present) == Collect([], nodes, present)
    {
      assert nodes[i..][0] == nodes[i] && nodes[i..][1..] == nodes[i + 1..];
      if !nodes[i].Empty() && nodes[i] !in present && nodes[i] !in r {
        r := r + [nodes[i]];
      }
    }
  }

  method DedupePreservingOrder(nodes: seq<Url>) returns (r: seq<Url>)
    ensures r == Collect([], nodes, [])
  {
    r := [];
    for i := 0 to |nodes|
      invariant Collect(r, nodes[i..], []) == Collect([], nodes, [])
    {
      assert nodes[i..][0] == nodes[i] && nodes[i..][1..] == nodes[i + 1..];
      if nodes[i].Empty() {
        continue;
      }
      if nodes[i] !in r {
        r := r + [nodes[i]];
      }
    }
  }
}
