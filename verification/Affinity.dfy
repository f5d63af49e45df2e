/** Key-route affinity (src/key_route_affinity.cpp): which nodes a key or a batch of keys prefers,
    and the plans built from that preference. */
module Affinity {
  import opened Urls
  import opened NodeLists
  import opened QueryPlans
  import opened Basics
  import Murmur3

  // ----- Keys and their hashes -----

  datatype AttributeValue =
    | StringValue(bytes: seq<Murmur3.Byte>)
    | NumberValue(bytes: seq<Murmur3.Byte>)
    | BinaryValue(bytes: seq<Murmur3.Byte>)

  function TypePrefix(v: AttributeValue): Murmur3.Byte {
    match v
    case StringValue(_) => 1
    case NumberValue(_) => 2
    case BinaryValue(_) => 3
  }

  function HashValue(v: AttributeValue): int {
    Murmur3.Signed(Murmur3.Hash(HashInput(v)))
  }

  /** What is hashed: the bytes of the value after a byte for its type. */
  function HashInput(v: AttributeValue): seq<Murmur3.Byte> {
    [TypePrefix(v)] + v.bytes
  }

  /** Values of different types, or with different bytes, are hashed from different inputs. */
  lemma HashInputIsInjective(v: AttributeValue, w: AttributeValue)
    ensures HashInput(v) == HashInput(w) <==> v == w
  {
    if HashInput(v) == HashInput(w) {
      assert HashInput(v)[0] == HashInput(w)[0];
      assert HashInput(v)[1..] == v.bytes && HashInput(w)[1..] == w.bytes;
    }
  }

  /** The type bytes are 1 for strings, 2 for numbers and 3 for binary values. */
  lemma HashInputs(bytes: seq<Murmur3.Byte>)
    ensures HashInput(StringValue(bytes)) == [1] + bytes
    ensures HashInput(NumberValue(bytes)) == [2] + bytes
    ensures HashInput(BinaryValue(bytes)) == [3] + bytes
  {
  }

  method HashAttributeValue(v: AttributeValue) returns (h: int)
    ensures h == HashValue(v)
  {
    var data := [TypePrefix(v)];
    data := data + v.bytes;
    var word := Murmur3.Murmur3H1Bytes(data);
    h := Murmur3.Signed(word);
  }

  type AttributeMap = map<string, AttributeValue>

  /** The partition key of each table, and the hash of key values; the library's is `HashValue`. */
  datatype Keying = Keying(keyByTable: map<string, string>, hash: AttributeValue -> int)

  function PartitionKeyName(keying: Keying, table: string): string {
    if table in keying.keyByTable then keying.keyByTable[table] else ""
  }

  function HashPartitionKey(values: AttributeMap, table: string, keying: Keying): Result<int> {
    var name := PartitionKeyName(keying, table);
    if name == "" || name !in values then Err else Ok(keying.hash(values[name]))
  }

  datatype Operation = Operation(table: string, values: AttributeMap)

  /** The hash of one batch operation, or nothing if its table or key is unknown. */
  function UsableHash(op: Operation, keying: Keying): seq<int> {
    match HashPartitionKey(op.values, op.table, keying)
    case Ok(h) => [h]
    case Err => []
  }

  function UsableHashes(ops: seq<Operation>, keying: Keying): seq<int> {
    if ops == [] then [] else UsableHashes(ops[..|ops| - 1], keying) + UsableHash(ops[|ops| - 1], keying)
  }

  lemma UsableHashesStep(ops: seq<Operation>, i: nat, keying: Keying)
    requires i < |ops|
    ensures UsableHashes(ops[..i + 1], keying) == UsableHashes(ops[..i], keying) + UsableHash(ops[i], keying)
  {
    assert ops[..i + 1][..i] == ops[..i];
  }

  method BatchWriteHashes(ops: seq<Operation>, keying: Keying) returns (hashes: seq<int>)
    ensures hashes == UsableHashes(ops, keying)
  {
    hashes := [];
    for i := 0 to |ops|
      invariant hashes == UsableHashes(ops[..i], keying)
    {
      UsableHashesStep(ops, i, keying);
      var name := PartitionKeyName(keying, ops[i].table);
      if name == "" {
        continue;
      }
      if name !in ops[i].values {
        continue;
      }
      hashes := hashes + [keying.hash(ops[i].values[name])];
    }
    assert ops[..|ops|] == ops;
  }

  /** The table of the operation has a partition key, and the operation has a value for it. */
  predicate HasKey(op: Operation, keying: Keying) {
    && op.table in keying.keyByTable && keying.keyByTable[op.table] != ""
    && keying.keyByTable[op.table] in op.values
  }

  function KeyValue(op: Operation, keying: Keying): AttributeValue
    requires HasKey(op, keying)
  {
    op.values[keying.keyByTable[op.table]]
  }

  /** The operations that have a key, in order. */
  function Keyed(ops: seq<Operation>, keying: Keying): (r: seq<Operation>)
    ensures forall k | 0 <= k < |r| :: HasKey(r[k], keying)
  {
    if ops == [] then []
    else
      var front, last := ops[..|ops| - 1], ops[|ops| - 1];
      Keyed(front, keying) + if HasKey(last, keying) then [last] else []
  }

  /** A key is hashed exactly if there is one, and what is hashed is the value of the partition key. */
  lemma HashOfTheKey(op: Operation, keying: Keying)
    ensures HashPartitionKey(op.values, op.table, keying) ==
            if HasKey(op, keying) then Ok(keying.hash(KeyValue(op, keying))) else Err
  {
  }

  /** The hashes of a batch are those of the partition-key values of the operations that have one, in order. */
  lemma {:induction false} HashesOfTheKeys(ops: seq<Operation>, keying: Keying)
    ensures |UsableHashes(ops, keying)| == |Keyed(ops, keying)|
    ensures forall k | 0 <= k < |Keyed(ops, keying)| ::
              UsableHashes(ops, keying)[k] == keying.hash(KeyValue(Keyed(ops, keying)[k], keying))
  {
    if ops != [] {
      HashesOfTheKeys(ops[..|ops| - 1], keying);
      HashOfTheKey(ops[|ops| - 1], keying);
    }
  }

  // ----- The plan of one key -----

  /** `active` and `forHash` are what the node source returned for this key. */
  function PartitionKeyPlan(pick: Picker, active: seq<Url>, forHash: seq<Url>, hash: int): Plan {
    if active == [] then WithSortedSeed(forHash, hash)
    else
      var sorted := SortAndDedupeNodes(active);
      FromOrderedNodes(Collect(Collect([], forHash, sorted), SeededOrder(pick, sorted, hash), []))
  }

  method QueryPlanForPartitionKey(pick: Picker, active: seq<Url>, forHash: seq<Url>, hash: int)
    returns (plan: QueryPlan)
    ensures fresh(plan) && plan.pick == pick && plan.View() == PartitionKeyPlan(pick, active, forHash, hash)
  {
    if active == [] {
      plan := new QueryPlan(pick, WithSortedSeed(forHash, hash));
      return;
    }
    var sorted := SortAndDedupeNodes(active);
    var ordered := NodesMissingFrom(forHash, sorted);
    var inner := new QueryPlan(pick, WithSortedSeed(sorted, hash));
    var drained := DrainPlan(inner);
    ordered := AppendMissingNodes(ordered, drained);
    var nodes := DedupePreservingOrder(ordered);
    plan := new QueryPlan(pick, NewPlan(nodes, 0, true, false, []));
  }

  /** The nodes offered for a key beyond the active ones, in order. */
  function Samples(active: seq<Url>, forHash: seq<Url>): seq<Url> {
    Collect([], forHash, SortAndDedupeNodes(active))
  }

  lemma SortedActive(active: seq<Url>)
    requires AllWellFormed(Members(active)) && active != []
    ensures var sorted := SortAndDedupeNodes(active);
            && sorted == InOrder(Members(active)) && sorted != []
            && Members(sorted) == Members(active)
  {
    InOrderOfMembers(active);
    assert active[0] in Members(active);
  }

  /** With active nodes the plan is the sampled nodes and then the seeded order of the active nodes,
      without repeats; that order depends on the set of active nodes and the hash alone. */
  lemma PartitionKeyPlanIsSamplesThenSeededOrder(pick: Picker, active: seq<Url>, forHash: seq<Url>, hash: int)
    requires AllWellFormed(Members(active)) && active != []
    ensures Drain(pick, PartitionKeyPlan(pick, active, forHash, hash)) ==
            Samples(active, forHash) + SeededOrder(pick, InOrder(Members(active)), hash)
    ensures NoRepeats(Samples(active, forHash) + SeededOrder(pick, InOrder(Members(active)), hash))
    ensures forall u :: u in Samples(active, forHash) <==> u in forHash && !u.Empty() && u !in active
    ensures Members(SeededOrder(pick, InOrder(Members(active)), hash)) == Members(active)
  {
    SortedActive(active);
    var sorted := SortAndDedupeNodes(active);
    var samples, order := Samples(active, forHash), SeededOrder(pick, sorted, hash);
    CollectSpec([], forHash, sorted);
    MembersAreElements(sorted, active);
    DrainMembers(pick, WithSortedSeed(sorted, hash));
    DrainIsPermutation(pick, WithSortedSeed(sorted, hash));
    assert forall u | u in order :: u in Members(order);
    CollectFresh(samples, order, []);
    AppendKeepsDistinct(samples, order);
    NothingEmpty(samples, order);
    CollectFresh([], samples + order, []);
    assert [] + (samples + order) == samples + order;
    DrainOrderedNodes(pick, samples + order);
  }

  lemma MembersAreElements(s: seq<Url>, t: seq<Url>)
    requires Members(s) == Members(t)
    ensures forall u :: u in s <==> u in t
  {
    forall u ensures u in s <==> u in t {
      assert u in Members(s) <==> u in s;
      assert u in Members(t) <==> u in t;
    }
  }

  lemma AppendKeepsDistinct(s: seq<Url>, t: seq<Url>)
    requires NoRepeats(s) && NoRepeats(t) && forall u | u in t :: u !in s
    ensures NoRepeats(s + t)
  {
    var r := s + t;
    forall i, j | 0 <= i < j < |r| ensures r[i] != r[j] {
      if i < |s| <= j { assert r[i] in s && r[j] in t; }
    }
  }

  lemma NothingEmpty(s: seq<Url>, t: seq<Url>)
    requires NoneEmpty(s) && NoneEmpty(t)
    ensures NoneEmpty(s + t)
  {
  }

  lemma NoSamplesAmongActive(active: seq<Url>)
    requires AllWellFormed(Members(active)) && active != []
    ensures Samples(active, active) == []
  {
    SortedActive(active);
    var sorted, none := SortAndDedupeNodes(active), Samples(active, active);
    assert none != [] ==> none[0] in none;
    CollectSpec([], active, sorted);
    MembersAreElements(sorted, active);
  }

  /** Deleting the samples leaves exactly the plan made without sampling; neither the order nor the
      repeats of the active list matter. */
  lemma SamplesOnlyPrecede(pick: Picker, active: seq<Url>, other: seq<Url>, forHash: seq<Url>, hash: int)
    requires AllWellFormed(Members(active)) && active != [] && Members(other) == Members(active)
    ensures Drain(pick, PartitionKeyPlan(pick, active, forHash, hash)) ==
            Samples(active, forHash) + Drain(pick, PartitionKeyPlan(pick, other, other, hash))
  {
    assert active[0] in Members(active);
    assert other != [];
    var order := SeededOrder(pick, InOrder(Members(active)), hash);
    assert Drain(pick, PartitionKeyPlan(pick, active, forHash, hash)) == Samples(active, forHash) + order by {
      PartitionKeyPlanIsSamplesThenSeededOrder(pick, active, forHash, hash);
    }
    assert Drain(pick, PartitionKeyPlan(pick, other, other, hash)) == [] + order by {
      PartitionKeyPlanIsSamplesThenSeededOrder(pick, other, other, hash);
      NoSamplesAmongActive(other);
    }
    assert [] + order == order;
  }

  /** The first active node of a key's plan is the one `FirstNodeWithSeed` names. */
  lemma PlanStartsWithFirst(pick: Picker, active: seq<Url>, hash: int)
    requires AllWellFormed(Members(active)) && active != []
    ensures var order := SeededOrder(pick, InOrder(Members(active)), hash);
            order != [] && order[0] == FirstNodeWithSeed(pick, active, hash)
    ensures FirstNodeWithSeed(pick, active, hash) in active
  {
    SortedActive(active);
    var sorted := SortAndDedupeNodes(active);
    SeededOrderStartsWithFirst(pick, sorted, hash);
    SortOfStrict(sorted);
    MembersAreElements(sorted, active);
  }

  /** With no active node the plan is the seeded order of the offered nodes, in whatever order they are offered, and
      starts with the node that `FirstNodeWithSeed` names. */
  lemma KeyPlanWithoutActive(pick: Picker, forHash: seq<Url>, hash: int)
    requires AllWellFormed(Members(forHash)) && NoRepeats(forHash) && forHash != []
    ensures var order := Drain(pick, PartitionKeyPlan(pick, [], forHash, hash));
            && order == SeededOrder(pick, InOrder(Members(forHash)), hash)
            && order != [] && order[0] == FirstNodeWithSeed(pick, forHash, hash)
  {
    SortOfDistinct(forHash);
    InOrderOfMembers(forHash);
    var sorted := InOrder(Members(forHash));
    SortOfStrict(sorted);
    assert NextOf(pick, WithSortedSeed(forHash, hash)) == NextOf(pick, WithSortedSeed(sorted, hash));
    assert forHash[0] in Members(forHash);
    PlanStartsWithFirst(pick, forHash, hash);
  }

  // ----- Voting -----

  /** The node each hash votes for. */
  function Ballots(pick: Picker, candidates: seq<Url>, hashes: seq<int>): seq<Url> {
    seq(|hashes|, i requires 0 <= i < |hashes| => FirstNodeWithSeed(pick, candidates, hashes[i]))
  }

  type Votes = multiset<Url>

  /** More votes first, then by text. */
  predicate Ahead(votes: Votes, u: Url, v: Url) {
    votes[u] > votes[v] || (votes[u] == votes[v] && Less(u, v))
  }

  predicate Ranked(votes: Votes, s: seq<Url>) {
    s == [] || ((forall u | u in s[1..] :: Ahead(votes, s[0], u)) && Ranked(votes, s[1..]))
  }

  function RankInsert(votes: Votes, u: Url, s: seq<Url>): seq<Url> {
    if s == [] || Ahead(votes, u, s[0]) then [u] + s else [s[0]] + RankInsert(votes, u, s[1..])
  }

  /** `std::sort` by votes and text. */
  function SortByVotes(votes: Votes, s: seq<Url>): seq<Url> {
    if s == [] then [] else RankInsert(votes, s[0], SortByVotes(votes, s[1..]))
  }

  lemma AheadIsStrictTotal(votes: Votes, u: Url, v: Url, w: Url)
    requires u.WellFormed() && v.WellFormed()
    ensures Ahead(votes, u, v) && Ahead(votes, v, w) ==> Ahead(votes, u, w)
    ensures u != v ==> (Ahead(votes, u, v) <==> !Ahead(votes, v, u))
    ensures !Ahead(votes, u, u)
  {
    LessIsStrictTotalOrder(u, v, w);
    LessIsStrictTotalOrder(u, u, u);
  }

  lemma {:induction false} RankInsertMembers(votes: Votes, u: Url, s: seq<Url>, v: Url)
    ensures v in RankInsert(votes, u, s) <==> v == u || v in s
  {
    if s != [] {
      assert s == [s[0]] + s[1..];
      RankInsertMembers(votes, u, s[1..], v);
    }
  }

  lemma {:induction false} RankInsertKeepsRank(votes: Votes, u: Url, s: seq<Url>)
    requires Ranked(votes, s) && u !in s && u.WellFormed() && AllWellFormed(Members(s))
    ensures Ranked(votes, RankInsert(votes, u, s))
  {
    if s != [] {
      assert s == [s[0]] + s[1..] && s[0] in Members(s);
      if Ahead(votes, u, s[0]) {
        assert ([u] + s)[1..] == s;
        forall v | v in s ensures Ahead(votes, u, v) {
          if v != s[0] { AheadIsStrictTotal(votes, u, s[0], v); }
        }
      } else {
        assert Members(s[1..]) <= Members(s);
        RankInsertKeepsRank(votes, u, s[1..]);
        var r := RankInsert(votes, u, s[1..]);
        assert ([s[0]] + r)[1..] == r;
        AheadIsStrictTotal(votes, s[0], u, u);
        forall v | v in r ensures Ahead(votes, s[0], v) {
          RankInsertMembers(votes, u, s[1..], v);
        }
      }
    }
  }

  lemma {:induction false} SortByVotesRanks(votes: Votes, s: seq<Url>)
    requires NoRepeats(s) && AllWellFormed(Members(s))
    ensures Ranked(votes, SortByVotes(votes, s)) && Members(SortByVotes(votes, s)) == Members(s)
  {
    if s != [] {
      NoRepeatsCons(s);
      assert s == [s[0]] + s[1..] && s[0] in Members(s) && Members(s[1..]) <= Members(s);
      SortByVotesRanks(votes, s[1..]);
      var r := SortByVotes(votes, s[1..]);
      MembersAreElements(r, s[1..]);
      RankInsertKeepsRank(votes, s[0], r);
      forall v ensures v in SortByVotes(votes, s) <==> v in s {
        RankInsertMembers(votes, s[0], r, v);
      }
    }
  }

  lemma {:induction false} RankedIsDistinct(votes: Votes, s: seq<Url>)
    requires Ranked(votes, s) && AllWellFormed(Members(s))
    ensures NoRepeats(s)
  {
    if s != [] {
      assert s[0] in Members(s) && Members(s[1..]) <= Members(s);
      RankedIsDistinct(votes, s[1..]);
      AheadIsStrictTotal(votes, s[0], s[0], s[0]);
      NoRepeatsCons(s);
    }
  }

  /** The ranked list of a set of nodes is unique. */
  lemma {:induction false} RankingIsUnique(votes: Votes, s: seq<Url>, t: seq<Url>)
    requires Ranked(votes, s) && Ranked(votes, t) && Members(s) == Members(t) && AllWellFormed(Members(s))
    ensures s == t
  {
    assert s != [] ==> s[0] in Members(s);
    assert t != [] ==> t[0] in Members(t);
    if s != [] {
      assert s == [s[0]] + s[1..] && t == [t[0]] + t[1..];
      RankedIsDistinct(votes, s);
      RankedIsDistinct(votes, t);
      NoRepeatsCons(s);
      NoRepeatsCons(t);
      MembersAreElements(s, t);
      AheadIsStrictTotal(votes, s[0], t[0], s[0]);
      assert s[0] == t[0];
      assert Members(s[1..]) == Members(s) - {s[0]};
      assert Members(t[1..]) == Members(t) - {t[0]};
      RankingIsUnique(votes, s[1..], t[1..]);
    }
  }

  function Voted(votes: Votes): set<Url> {
    set u | u in votes
  }

  /** The voted nodes in rank order, given the votes. */
  ghost function Preferred(votes: Votes): (r: seq<Url>)
    requires AllWellFormed(Voted(votes))
    ensures Ranked(votes, r) && NoRepeats(r) && Members(r) == Voted(votes) && NoneEmpty(r)
  {
    var keys := InOrder(Voted(votes));
    SortByVotesRanks(votes, keys);
    RankedIsDistinct(votes, SortByVotes(votes, keys));
    assert forall u | u in SortByVotes(votes, keys) :: u in Members(SortByVotes(votes, keys));
    SortByVotes(votes, keys)
  }

  lemma {:induction false} RankedPairs(votes: Votes, s: seq<Url>, i: nat, j: nat)
    requires Ranked(votes, s) && i < j < |s|
    ensures Ahead(votes, s[i], s[j])
  {
    var rest := s[1..];
    assert s[j] == rest[j - 1] && s[j] in rest;
    if i > 0 {
      assert s[i] == rest[i - 1];
      RankedPairs(votes, rest, i - 1, j - 1);
    }
  }

  /** Of two preferred nodes the first has more votes, or as many and the smaller text. */
  lemma PreferredByVotesThenText(votes: Votes, i: nat, j: nat)
    requires AllWellFormed(Voted(votes)) && i < j < |Preferred(votes)|
    ensures var u, v := Preferred(votes)[i], Preferred(votes)[j];
            votes[u] > votes[v] || (votes[u] == votes[v] && ComesBefore(u.ToString(), v.ToString()))
  {
    RankedPairs(votes, Preferred(votes), i, j);
    LessIsTextOrder(Preferred(votes)[i], Preferred(votes)[j]);
  }

  lemma BallotsAreCandidates(pick: Picker, candidates: seq<Url>, hashes: seq<int>)
    requires AllWellFormed(Members(candidates)) && candidates != []
    ensures Voted(multiset(Ballots(pick, candidates, hashes))) <= Members(candidates)
    ensures AllWellFormed(Voted(multiset(Ballots(pick, candidates, hashes))))
    ensures hashes != [] ==> Voted(multiset(Ballots(pick, candidates, hashes))) != {}
  {
    var b := Ballots(pick, candidates, hashes);
    forall u | u in Voted(multiset(b)) ensures u in Members(candidates) {
      assert u in b;
      var i :| 0 <= i < |b| && b[i] == u;
      PlanStartsWithFirst(pick, candidates, hashes[i]);
    }
    if hashes != [] {
      assert b[0] in b;
      assert b[0] in Voted(multiset(b));
    }
  }

  /** The preferred nodes of a batch over some candidates. */
  ghost function PreferredNodes(pick: Picker, candidates: seq<Url>, hashes: seq<int>): Result<seq<Url>>
    requires AllWellFormed(Members(candidates))
  {
    if candidates == [] || hashes == [] then Err
    else
      BallotsAreCandidates(pick, candidates, hashes);
      Ok(Preferred(multiset(Ballots(pick, candidates, hashes))))
  }

  /** One turn of the voting loop. */
  method VoteFor(pick: Picker, candidates: seq<Url>, op: Operation, keying: Keying,
                 votes: map<Url, nat>, ghost done: seq<int>) returns (r: map<Url, nat>)
    requires AllWellFormed(Members(candidates)) && candidates != []
    requires CountsBallots(votes, Ballots(pick, candidates, done))
    ensures CountsBallots(r, Ballots(pick, candidates, done + UsableHash(op, keying)))
  {
    var name := PartitionKeyName(keying, op.table);
    if name == "" || name !in op.values {
      assert done + [] == done;
      return votes;
    }
    var hash := keying.hash(op.values[name]);
    var node := FirstNodeWithSeed(pick, candidates, hash);
    assert !node.Empty() by {
      PlanStartsWithFirst(pick, candidates, hash);
      assert node in Members(candidates);
    }
    BallotsSnoc(pick, candidates, done, hash);
    r := votes;
    if !node.Empty() {
      r := CastVote(votes, node, Ballots(pick, candidates, done));
    }
  }

  /** The voting loop: one vote for each usable operation. */
  method CountVotes(pick: Picker, candidates: seq<Url>, ops: seq<Operation>, keying: Keying)
    returns (votes: map<Url, nat>)
    requires AllWellFormed(Members(candidates)) && candidates != []
    ensures CountsBallots(votes, Ballots(pick, candidates, UsableHashes(ops, keying)))
  {
    votes := map[];
    for i := 0 to |ops|
      invariant CountsBallots(votes, Ballots(pick, candidates, UsableHashes(ops[..i], keying)))
    {
      UsableHashesStep(ops, i, keying);
      votes := VoteFor(pick, candidates, ops[i], keying, votes, UsableHashes(ops[..i], keying));
    }
    assert ops[..|ops|] == ops;
  }

  ghost predicate CountsBallots(votes: map<Url, nat>, ballots: seq<Url>) {
    votes.Keys == Voted(multiset(ballots)) && forall u | u in votes :: votes[u] == multiset(ballots)[u]
  }

  lemma BallotsSnoc(pick: Picker, candidates: seq<Url>, hashes: seq<int>, hash: int)
    ensures Ballots(pick, candidates, hashes + [hash]) ==
            Ballots(pick, candidates, hashes) + [FirstNodeWithSeed(pick, candidates, hash)]
  {
  }

  method CastVote(votes: map<Url, nat>, u: Url, ghost ballots: seq<Url>) returns (r: map<Url, nat>)
    requires CountsBallots(votes, ballots)
    ensures CountsBallots(r, ballots + [u])
  {
    assert multiset(ballots + [u]) == multiset(ballots) + multiset{u};
    assert u in votes <==> u in Voted(multiset(ballots));
    r := votes[u := (if u in votes then votes[u] else 0) + 1];
  }

  method SelectBatchWritePreferredNodes(pick: Picker, candidates: seq<Url>, ops: seq<Operation>, keying: Keying)
    returns (r: Result<seq<Url>>)
    requires AllWellFormed(Members(candidates))
    ensures r == PreferredNodes(pick, candidates, UsableHashes(ops, keying))
  {
    if candidates == [] {
      return Err;
    }
    var votes := CountVotes(pick, candidates, ops, keying);
    ghost var hashes := UsableHashes(ops, keying);
    ghost var ballots := multiset(Ballots(pick, candidates, hashes));
    BallotsAreCandidates(pick, candidates, hashes);
    assert hashes == [] ==> ballots == multiset{} && Voted(ballots) == {};
    if votes == map[] {
      return Err;
    }
    assert votes.Keys != {};
    var preferred := RankVoted(votes, ballots);
    return Ok(preferred);
  }

  method RankVoted(votes: map<Url, nat>, ghost ballots: Votes) returns (r: seq<Url>)
    requires votes.Keys == Voted(ballots) && (forall u | u in votes :: votes[u] == ballots[u])
    requires AllWellFormed(Voted(ballots))
    ensures r == Preferred(ballots)
  {
    var keys := Enumerate(votes.Keys);
    assert forall u | u in keys :: u in Members(keys);
    var counts := CountsOf(votes, keys);
    CountsOfKeys(votes, keys);
    assert counts == ballots by {
      forall u ensures counts[u] == ballots[u] {
        assert u in keys <==> u in Members(keys);
        assert u in votes <==> u in Voted(ballots);
      }
    }
    SortByVotesRanks(counts, keys);
    RankingIsUnique(counts, SortByVotes(counts, keys), Preferred(ballots));
    r := SortByVotes(counts, keys);
  }

  function CountsOf(votes: map<Url, nat>, keys: seq<Url>): multiset<Url>
    requires forall u | u in keys :: u in votes
  {
    if keys == [] then multiset{} else CountsOf(votes, keys[1..])[keys[0] := votes[keys[0]]]
  }

  lemma {:induction false} CountsOfKeys(votes: map<Url, nat>, keys: seq<Url>)
    requires forall u | u in keys :: u in votes
    ensures forall u :: CountsOf(votes, keys)[u] == if u in keys then votes[u] else 0
  {
    if keys != [] {
      assert keys == [keys[0]] + keys[1..];
      CountsOfKeys(votes, keys[1..]);
    }
  }

  // ----- Votes are conserved and do not depend on order -----

  function SumVotes(votes: Votes, s: seq<Url>): nat {
    if s == [] then 0 else votes[s[0]] + SumVotes(votes, s[1..])
  }

  lemma {:induction false} SumIgnores(votes: Votes, s: seq<Url>, u: Url)
    requires u !in s
    ensures SumVotes(votes[u := 0], s) == SumVotes(votes, s)
  {
    if s != [] {
      assert s == [s[0]] + s[1..];
      SumIgnores(votes, s[1..], u);
    }
  }

  lemma {:induction false} SumIsSize(votes: Votes, s: seq<Url>)
    requires NoRepeats(s) && Members(s) == Voted(votes)
    ensures SumVotes(votes, s) == |votes|
  {
    if s == [] {
      assert votes == multiset{} by {
        forall u ensures votes[u] == 0 { assert u !in Voted(votes); }
      }
    } else {
      NoRepeatsCons(s);
      var rest := votes[s[0] := 0];
      assert s == [s[0]] + s[1..];
      forall u ensures u in s[1..] <==> u in Voted(rest) {
        assert u in Members(s) <==> u in Voted(votes);
      }
      assert Members(s[1..]) == Voted(rest);
      SumIsSize(rest, s[1..]);
      SumIgnores(votes, s[1..], s[0]);
      assert |rest| == |votes| - votes[s[0]];
    }
  }

  /** The votes of the preferred nodes add up to the number of usable operations. */
  lemma VotesAreConserved(pick: Picker, candidates: seq<Url>, hashes: seq<int>)
    requires AllWellFormed(Members(candidates)) && candidates != []
    ensures AllWellFormed(Voted(multiset(Ballots(pick, candidates, hashes))))
    ensures var votes := multiset(Ballots(pick, candidates, hashes)); SumVotes(votes, Preferred(votes)) == |hashes|
  {
    BallotsAreCandidates(pick, candidates, hashes);
    var votes := multiset(Ballots(pick, candidates, hashes));
    SumIsSize(votes, Preferred(votes));
  }

  ghost function Places(s: seq<Url>, u: Url): set<int> {
    set k | 0 <= k < |s| && s[k] == u
  }

  lemma {:induction false} CountPlaces(s: seq<Url>, u: Url)
    ensures multiset(s)[u] == |Places(s, u)|
  {
    if s != [] {
      var n := |s| - 1;
      assert s == s[..n] + [s[n]];
      CountPlaces(s[..n], u);
      assert Places(s, u) == Places(s[..n], u) + if s[n] == u then {n} else {};
    }
  }

  /** A node has one vote for each operation with a key whose hash names it first. */
  lemma OneVoteForEachKey(pick: Picker, candidates: seq<Url>, ops: seq<Operation>, keying: Keying, u: Url)
    ensures var keyed := Keyed(ops, keying);
            multiset(Ballots(pick, candidates, UsableHashes(ops, keying)))[u] ==
            |set k | 0 <= k < |keyed| &&
                     FirstNodeWithSeed(pick, candidates, keying.hash(KeyValue(keyed[k], keying))) == u|
  {
    HashesOfTheKeys(ops, keying);
    var keyed, ballots := Keyed(ops, keying), Ballots(pick, candidates, UsableHashes(ops, keying));
    CountPlaces(ballots, u);
    assert Places(ballots, u) ==
           set k | 0 <= k < |keyed| &&
                   FirstNodeWithSeed(pick, candidates, keying.hash(KeyValue(keyed[k], keying))) == u;
  }

  function FlatMap<T, U>(f: T -> seq<U>, s: seq<T>): seq<U> {
    if s == [] then [] else FlatMap(f, s[..|s| - 1]) + f(s[|s| - 1])
  }

  lemma FlatMapSnoc<T, U>(f: T -> seq<U>, s: seq<T>, x: T)
    ensures FlatMap(f, s + [x]) == FlatMap(f, s) + f(x)
    ensures multiset(FlatMap(f, s + [x])) == multiset(FlatMap(f, s)) + multiset(f(x))
  {
    assert (s + [x])[..|s|] == s;
  }

  lemma CutBeforeLast<T>(s: seq<T>, i: nat)
    requires i < |s| - 1
    ensures var n := |s| - 1;
            s == s[..n] + [s[n]] && s[..n][i] == s[i] &&
            s[..i] + s[i + 1..] == (s[..n][..i] + s[..n][i + 1..]) + [s[n]]
  {
  }

  lemma {:induction false} FlatMapTakesOut<T, U>(f: T -> seq<U>, s: seq<T>, i: nat)
    requires i < |s|
    ensures multiset(FlatMap(f, s)) == multiset(FlatMap(f, s[..i] + s[i + 1..])) + multiset(f(s[i]))
  {
    var n := |s| - 1;
    var t := s[..i] + s[i + 1..];
    if i < n {
      var front := s[..n];
      var cut := front[..i] + front[i + 1..];
      FlatMapTakesOut(f, front, i);
      CutBeforeLast(s, i);
      FlatMapSnoc(f, front, s[n]);
      FlatMapSnoc(f, cut, s[n]);
    } else {
      assert t == s[..n];
    }
  }

  /** What a list is mapped to depends, up to order, only on what the list contains. */
  lemma {:induction false} FlatMapIgnoresOrder<T, U>(f: T -> seq<U>, s: seq<T>, t: seq<T>)
    requires multiset(s) == multiset(t)
    ensures multiset(FlatMap(f, s)) == multiset(FlatMap(f, t))
    decreases |s|
  {
    if s == [] {
      assert |multiset(t)| == 0;
    } else {
      var n := |s| - 1;
      assert s == s[..n] + [s[n]];
      assert s[n] in multiset(t);
      var i :| 0 <= i < |t| && t[i] == s[n];
      var t' := t[..i] + t[i + 1..];
      assert t == t[..i] + [t[i]] + t[i + 1..];
      assert multiset(t) == multiset(t') + multiset{s[n]};
      assert multiset(s) == multiset(s[..n]) + multiset{s[n]};
      assert multiset(t') == multiset(t) - multiset{s[n]};
      assert multiset(s[..n]) == multiset(s) - multiset{s[n]};
      FlatMapIgnoresOrder(f, s[..n], t');
      FlatMapTakesOut(f, t, i);
    }
  }

  lemma {:induction false} UsableHashesAreMapped(ops: seq<Operation>, keying: Keying)
    ensures UsableHashes(ops, keying) == FlatMap((op: Operation) => UsableHash(op, keying), ops)
  {
    if ops != [] {
      UsableHashesAreMapped(ops[..|ops| - 1], keying);
    }
  }

  lemma {:induction false} BallotsAreMapped(pick: Picker, candidates: seq<Url>, hashes: seq<int>)
    ensures Ballots(pick, candidates, hashes) == FlatMap((h: int) => [FirstNodeWithSeed(pick, candidates, h)], hashes)
  {
    if hashes != [] {
      var n := |hashes| - 1;
      BallotsAreMapped(pick, candidates, hashes[..n]);
      assert hashes == hashes[..n] + [hashes[n]];
      BallotsSnoc(pick, candidates, hashes[..n], hashes[n]);
    }
  }

  lemma BallotsIgnoreOrder(pick: Picker, candidates: seq<Url>, g: seq<int>, h: seq<int>)
    requires multiset(g) == multiset(h)
    ensures multiset(Ballots(pick, candidates, g)) == multiset(Ballots(pick, candidates, h))
    ensures g == [] <==> h == []
  {
    BallotsAreMapped(pick, candidates, g);
    BallotsAreMapped(pick, candidates, h);
    FlatMapIgnoresOrder((x: int) => [FirstNodeWithSeed(pick, candidates, x)], g, h);
    assert |g| == |multiset(g)| && |h| == |multiset(h)|;
  }

  /** The preferred nodes do not depend on the order of the operations. */
  lemma VotingIgnoresOperationOrder(pick: Picker, candidates: seq<Url>, a: seq<Operation>, b: seq<Operation>,
                                    keying: Keying)
    requires AllWellFormed(Members(candidates)) && multiset(a) == multiset(b)
    ensures PreferredNodes(pick, candidates, UsableHashes(a, keying)) ==
            PreferredNodes(pick, candidates, UsableHashes(b, keying))
  {
    UsableHashesAreMapped(a, keying);
    UsableHashesAreMapped(b, keying);
    FlatMapIgnoresOrder((op: Operation) => UsableHash(op, keying), a, b);
    BallotsIgnoreOrder(pick, candidates, UsableHashes(a, keying), UsableHashes(b, keying));
  }

  /** Two operations on one table that agree on its partition key. */
  predicate SameKey(a: Operation, b: Operation, keying: Keying) {
    var name := PartitionKeyName(keying, a.table);
    && a.table == b.table
    && (name in a.values <==> name in b.values)
    && (name in a.values ==> a.values[name] == b.values[name])
  }

  /** Attributes other than the partition key do not influence the hashes, hence not the plan. */
  lemma {:induction false} VotingIgnoresOtherAttributes(a: seq<Operation>, b: seq<Operation>, keying: Keying)
    requires |a| == |b| && forall i | 0 <= i < |a| :: SameKey(a[i], b[i], keying)
    ensures UsableHashes(a, keying) == UsableHashes(b, keying)
  {
    if a != [] {
      var n := |a| - 1;
      VotingIgnoresOtherAttributes(a[..n], b[..n], keying);
      assert SameKey(a[n], b[n], keying);
    }
  }

  // ----- The plan of a batch -----

  /** `forHashes` is what the node source offered for the batch's hashes. */
  ghost function BatchWritePlan(pick: Picker, active: seq<Url>, forHashes: seq<Url>, hashes: seq<int>): Result<Plan>
    requires AllWellFormed(Members(active)) && AllWellFormed(Members(forHashes))
  {
    if active == [] then
      match PreferredNodes(pick, forHashes, hashes)
      case Err => Err
      case Ok(preferred) => Ok(WithPreferredNodes(forHashes, preferred))
    else
      SortedActive(active);
      var sorted := SortAndDedupeNodes(active);
      match PreferredNodes(pick, sorted, hashes)
      case Err => Err
      case Ok(preferred) =>
        Ok(FromOrderedNodes(Collect(Collect(Collect([], forHashes, sorted), preferred, []), sorted, [])))
  }

  method QueryPlanForBatchWrite(pick: Picker, active: seq<Url>, forHashes: seq<Url>, ops: seq<Operation>,
                                keying: Keying)
    returns (r: Result<QueryPlan>)
    requires AllWellFormed(Members(active)) && AllWellFormed(Members(forHashes))
    ensures match BatchWritePlan(pick, active, forHashes, UsableHashes(ops, keying))
            case Err => r == Err
            case Ok(plan) => r.Ok? && fresh(r.value) && r.value.pick == pick && r.value.View() == plan
  {
    if active == [] {
      var chosen := SelectBatchWritePreferredNodes(pick, forHashes, ops, keying);
      if chosen.Err? {
        return Err;
      }
      var plan := new QueryPlan(pick, WithPreferredNodes(forHashes, chosen.value));
      return Ok(plan);
    }
    SortedActive(active);
    var sorted := SortAndDedupeNodes(active);
    var ordered := NodesMissingFrom(forHashes, sorted);
    var chosen := SelectBatchWritePreferredNodes(pick, sorted, ops, keying);
    if chosen.Err? {
      return Err;
    }
    ordered := AppendMissingNodes(ordered, chosen.value);
    ordered := AppendMissingNodes(ordered, sorted);
    var nodes := DedupePreservingOrder(ordered);
    var plan := new QueryPlan(pick, NewPlan(nodes, 0, true, false, []));
    return Ok(plan);
  }

  /** The active nodes without a vote, sorted. */
  ghost function Unvoted(active: seq<Url>, preferred: seq<Url>): seq<Url>
    requires AllWellFormed(Members(active))
  {
    InOrder(Members(active) - Members(preferred))
  }

  lemma UnvotedIsCollected(active: seq<Url>, samples: seq<Url>, preferred: seq<Url>)
    requires AllWellFormed(Members(active)) && active != [] && forall u | u in samples :: u !in active
    ensures Collect([], SortAndDedupeNodes(active), samples + preferred) == Unvoted(active, preferred)
  {
    SortedActive(active);
    var sorted := SortAndDedupeNodes(active);
    var r := Collect([], sorted, samples + preferred);
    CollectSpec([], sorted, samples + preferred);
    CollectKeepsOrder(sorted, samples + preferred);
    MembersAreElements(sorted, active);
    forall u ensures u in Members(r) <==> u in Members(active) - Members(preferred) {
      assert u in sorted ==> u in Members(sorted);
    }
    StrictOrderIsUnique(r, Unvoted(active, preferred));
  }

  lemma ThreeParts(pick: Picker, samples: seq<Url>, preferred: seq<Url>, sorted: seq<Url>, rest: seq<Url>)
    requires NoRepeats(samples) && NoRepeats(preferred) && NoRepeats(rest)
    requires NoneEmpty(samples) && NoneEmpty(preferred) && NoneEmpty(rest)
    requires forall u | u in preferred :: u !in samples
    requires rest == Collect([], sorted, samples + preferred)
    ensures Drain(pick, FromOrderedNodes(Collect(Collect(samples, preferred, []), sorted, []))) ==
            samples + preferred + rest
    ensures NoRepeats(samples + preferred + rest)
  {
    var front := samples + preferred;
    CollectFresh(samples, preferred, []);
    AppendKeepsDistinct(samples, preferred);
    CollectOnto(front, sorted);
    CollectSpec([], sorted, front);
    AppendKeepsDistinct(front, rest);
    NothingEmpty(samples, preferred);
    NothingEmpty(front, rest);
    CollectFresh([], front + rest, []);
    assert [] + (front + rest) == front + rest;
    DrainOrderedNodes(pick, front + rest);
  }

  /** With active nodes a batch plan is the samples, the voted nodes by rank, and the other active nodes
      sorted; nothing repeats and nothing active is missing. */
  lemma BatchPlanShape(pick: Picker, active: seq<Url>, forHashes: seq<Url>, hashes: seq<int>)
    requires AllWellFormed(Members(active)) && AllWellFormed(Members(forHashes)) && active != [] && hashes != []
    ensures AllWellFormed(Voted(multiset(Ballots(pick, active, hashes))))
    ensures BatchWritePlan(pick, active, forHashes, hashes).Ok?
    ensures var preferred := Preferred(multiset(Ballots(pick, active, hashes)));
            var order := Samples(active, forHashes) + preferred + Unvoted(active, preferred);
            && Drain(pick, BatchWritePlan(pick, active, forHashes, hashes).value) == order
            && NoRepeats(order)
            && Members(order) == Members(forHashes) + Members(active)
  {
    SortedActive(active);
    var sorted := SortAndDedupeNodes(active);
    BallotsAreCandidates(pick, active, hashes);
    BallotsOfSorted(pick, active, hashes);
    var preferred := Preferred(multiset(Ballots(pick, active, hashes)));
    var samples, rest := Samples(active, forHashes), Unvoted(active, preferred);
    SamplesSpec(active, forHashes);
    assert forall u | u in preferred :: u in Members(preferred) && u in Members(active);
    assert forall u | u in rest :: u in Members(rest);
    UnvotedIsCollected(active, samples, preferred);
    ThreeParts(pick, samples, preferred, sorted, rest);
    PlanMembers(active, forHashes, samples, preferred, rest);
  }

  lemma SamplesSpec(active: seq<Url>, forHash: seq<Url>)
    requires AllWellFormed(Members(active)) && active != []
    ensures NoRepeats(Samples(active, forHash)) && NoneEmpty(Samples(active, forHash))
    ensures forall u :: u in Samples(active, forHash) <==> u in forHash && !u.Empty() && u !in active
  {
    SortedActive(active);
    CollectSpec([], forHash, SortAndDedupeNodes(active));
    MembersAreElements(SortAndDedupeNodes(active), active);
  }

  lemma PlanMembers(active: seq<Url>, forHashes: seq<Url>, samples: seq<Url>, preferred: seq<Url>, rest: seq<Url>)
    requires AllWellFormed(Members(forHashes))
    requires forall u :: u in samples <==> u in forHashes && !u.Empty() && u !in active
    requires Members(preferred) <= Members(active) && Members(rest) == Members(active) - Members(preferred)
    ensures Members(samples + preferred + rest) == Members(forHashes) + Members(active)
  {
    forall u ensures u in Members(samples + preferred + rest) <==> u in Members(forHashes) + Members(active) {
      assert u in Members(preferred) <==> u in preferred;
      assert u in Members(rest) <==> u in rest;
      assert u in forHashes ==> u in Members(forHashes);
    }
  }

  lemma BallotsOfSorted(pick: Picker, active: seq<Url>, hashes: seq<int>)
    requires AllWellFormed(Members(active)) && active != []
    ensures Ballots(pick, SortAndDedupeNodes(active), hashes) == Ballots(pick, active, hashes)
  {
    SortedActive(active);
    SortOfStrict(SortAndDedupeNodes(active));
  }

  lemma OneVote(u: Url)
    requires u.WellFormed()
    ensures AllWellFormed(Voted(multiset([u]))) && Preferred(multiset([u])) == [u]
  {
    assert Voted(multiset([u])) == {u};
    var r := Preferred(multiset([u]));
    assert u in Members(r);
    assert r != [] && (|r| >= 2 ==> r[0] != r[1]);
    forall i | 0 <= i < |r| ensures r[i] == u {
      assert r[i] in Members(r);
    }
  }

  lemma BatchOfOne(pick: Picker, active: seq<Url>, forHashes: seq<Url>, hash: int)
    requires AllWellFormed(Members(active)) && AllWellFormed(Members(forHashes)) && active != []
    ensures BatchWritePlan(pick, active, forHashes, [hash]).Ok?
    ensures var batch := Drain(pick, BatchWritePlan(pick, active, forHashes, [hash]).value);
            var i := |Samples(active, forHashes)|;
            i < |batch| && batch[i] == FirstNodeWithSeed(pick, active, hash)
  {
    PlanStartsWithFirst(pick, active, hash);
    var first := FirstNodeWithSeed(pick, active, hash);
    assert first in Members(active);
    BatchPlanShape(pick, active, forHashes, [hash]);
    assert Ballots(pick, active, [hash]) == [first];
    OneVote(first);
  }

  /** For one usable operation the batch plan and the single-key plan agree on the first active node. */
  lemma SingleOperationAgrees(pick: Picker, active: seq<Url>, forHashes: seq<Url>, forHash: seq<Url>, hash: int)
    requires AllWellFormed(Members(active)) && AllWellFormed(Members(forHashes)) && active != []
    ensures BatchWritePlan(pick, active, forHashes, [hash]).Ok?
    ensures var batch := Drain(pick, BatchWritePlan(pick, active, forHashes, [hash]).value);
            var single := Drain(pick, PartitionKeyPlan(pick, active, forHash, hash));
            var i, j := |Samples(active, forHashes)|, |Samples(active, forHash)|;
            i < |batch| && j < |single| && batch[i] == single[j]
  {
    BatchOfOne(pick, active, forHashes, hash);
    PartitionKeyPlanIsSamplesThenSeededOrder(pick, active, forHash, hash);
    PlanStartsWithFirst(pick, active, hash);
  }

  /** A batch of one operation with a key puts the node that the key's hash names first among the active nodes. */
  lemma BatchOfOneKey(pick: Picker, active: seq<Url>, forHashes: seq<Url>, op: Operation, keying: Keying)
    requires AllWellFormed(Members(active)) && AllWellFormed(Members(forHashes)) && active != [] && HasKey(op, keying)
    ensures BatchWritePlan(pick, active, forHashes, UsableHashes([op], keying)).Ok?
    ensures var batch := Drain(pick, BatchWritePlan(pick, active, forHashes, UsableHashes([op], keying)).value);
            var i := |Samples(active, forHashes)|;
            i < |batch| && batch[i] == FirstNodeWithSeed(pick, active, keying.hash(KeyValue(op, keying)))
  {
    HashesOfTheKeys([op], keying);
    assert [op][..0] == [] && Keyed([op], keying) == [op];
    var hash := keying.hash(KeyValue(op, keying));
    assert UsableHashes([op], keying) == [hash];
    BatchOfOne(pick, active, forHashes, hash);
  }

  lemma {:induction false} RemoveAllOfStrict(s: seq<Url>, gone: seq<Url>)
    requires StrictlyOrdered(s)
    ensures StrictlyOrdered(RemoveAll(s, gone)) && Members(RemoveAll(s, gone)) == Members(s) - Members(gone)
    decreases |gone|
  {
    if gone != [] {
      var u := gone[0];
      assert gone == [u] + gone[1..];
      if u in s {
        RemoveFirstOfStrict(s, u);
        RemoveAllOfStrict(RemoveFirst(s, u), gone[1..]);
      } else {
        RemoveAllOfStrict(s, gone[1..]);
      }
    }
  }

  lemma {:induction false} RemoveFirstStays(s: seq<Url>, u: Url, v: Url)
    requires u in s && v in RemoveFirst(s, u)
    ensures v in s
  {
    assert s == [s[0]] + s[1..];
    if s[0] != u && v != s[0] {
      RemoveFirstStays(s[1..], u, v);
    }
  }

  lemma {:induction false} RemoveFirstKeepsOrder(s: seq<Url>, u: Url)
    requires StrictlyOrdered(s) && u in s
    ensures StrictlyOrdered(RemoveFirst(s, u))
  {
    assert s == [s[0]] + s[1..];
    if s[0] != u {
      RemoveFirstKeepsOrder(s[1..], u);
      var r := RemoveFirst(s[1..], u);
      assert ([s[0]] + r)[1..] == r;
      forall v | v in r ensures Less(s[0], v) {
        RemoveFirstStays(s[1..], u, v);
      }
    }
  }

  lemma RemoveFirstMembers(s: seq<Url>, u: Url)
    requires NoRepeats(s) && u in s
    ensures Members(RemoveFirst(s, u)) == Members(s) - {u}
  {
    RemoveFirstTakesOne(s, u);
    MultisetOfDistinct(s);
    var r := RemoveFirst(s, u);
    forall v ensures v in Members(r) <==> v in Members(s) && v != u {
      assert v in r <==> v in multiset(r);
      assert v in s <==> v in multiset(s);
    }
  }

  lemma RemoveFirstOfStrict(s: seq<Url>, u: Url)
    requires StrictlyOrdered(s) && u in s
    ensures StrictlyOrdered(RemoveFirst(s, u)) && Members(RemoveFirst(s, u)) == Members(s) - {u}
  {
    StrictMeansDistinctTexts(s);
    RemoveFirstMembers(s, u);
    RemoveFirstKeepsOrder(s, u);
  }

  /** With no active node a batch plan is the voted nodes by rank and then the other offered nodes sorted. */
  lemma BatchPlanWithoutActive(pick: Picker, forHashes: seq<Url>, hashes: seq<int>)
    requires AllWellFormed(Members(forHashes)) && NoRepeats(forHashes) && forHashes != [] && hashes != []
    ensures AllWellFormed(Voted(multiset(Ballots(pick, forHashes, hashes))))
    ensures BatchWritePlan(pick, [], forHashes, hashes).Ok?
    ensures var preferred := Preferred(multiset(Ballots(pick, forHashes, hashes)));
            Drain(pick, BatchWritePlan(pick, [], forHashes, hashes).value) ==
            preferred + InOrder(Members(forHashes) - Members(preferred))
  {
    BallotsAreCandidates(pick, forHashes, hashes);
    var preferred := Preferred(multiset(Ballots(pick, forHashes, hashes)));
    assert multiset(preferred) <= multiset(forHashes) by {
      MultisetOfDistinct(preferred);
      forall u ensures multiset(preferred)[u] <= multiset(forHashes)[u] {
        if u in preferred {
          assert u in Members(preferred) && u in Members(forHashes);
          assert u in multiset(forHashes);
        }
      }
    }
    assert NoneEmpty(forHashes) by { assert forall u | u in forHashes :: u in Members(forHashes); }
    SortIsOrderedPermutation(forHashes);
    AllHonoured(SortNodes(forHashes), preferred);
    DrainPreferredNodes(pick, forHashes, preferred);
    SortOfDistinct(forHashes);
    InOrderOfMembers(forHashes);
    var rest := RemoveAll(SortNodes(forHashes), preferred);
    RemoveAllOfStrict(SortNodes(forHashes), preferred);
    StrictOrderIsUnique(rest, InOrder(Members(forHashes) - Members(preferred)));
  }
}
