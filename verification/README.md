# Verified model of the Alternator client's routing core

A Dafny 4.11 model of the client-side load balancer in `scylladb/alternator-client-cpp`: which nodes the client
knows, which of them it considers healthy, in which order one request tries them, and how keys keep their
preferred coordinator. Around that core it models the seeded generator and the hash that the order depends on,
the parser of `/localnodes` replies, content-coding negotiation, and the redaction sweep of the release scripts.

`dafny verify dfyconfig.toml` checks everything.

| file | models | form |
|---|---|---|
| Basics.dfy | results, options, white space | datatypes |
| Urls.dfy | `Url`, its text form and its order | functions |
| NodeLists.dfy | sorting, deduplication, "append what is missing" | functions, loop methods |
| NodeHealth.dfy | the health state machine and `NodeHealthStore` | functions, class |
| Words.dfy | 64-bit words as numbers, bit operations | functions |
| GoRandom.dfy | the Go-compatible generator | class over an array |
| Murmur3.dfy | the hash | loop methods |
| QueryPlans.dfy | `QueryPlan` | class |
| Affinity.dfy | partition-key and batch-write plans | functions, loop methods |
| LiveNodes.dfy | the routing state as a machine of elementary steps | functions |
| RoutingTheorems.dfy | what every run of that machine guarantees | lemmas |
| Discovery.dfy | refreshes and whole histories of public operations as step sequences | functions, lemmas |
| LiveNodesClient.dfy | `AlternatorLiveNodes` itself | class |
| LockSections.dfy | calls interleaved at lock sections | functions, lemmas |
| LocalNodesJson.dfy | the `/localnodes` parser and its grammar | loop methods, lemmas |
| ContentEncoding.dfy | `Content-Encoding` and `Accept-Encoding` | loop methods, lemmas |
| Redaction.dfy | the span sweep of `redact` | loop method, lemmas |

## How the model is built

* Operations that loop or change state are methods proved equal to a function of the old state; the promises are
  lemmas about those functions. `AlternatorLiveNodes` is a class whose methods are proved to perform sequences of
  the elementary steps of `LiveNodes`, so a statement about all step sequences holds of all its histories.
* `Url` has two equalities: `==` compares fields, `<` and every ordered map compare the text. They agree on
  well-formed URLs (`ToStringIsInjective`) and not elsewhere (`EqualitiesDisagree`); for the nodes of one client
  `SiblingsCollideExactly` says exactly which hosts collide. The health store takes any URL and finds it by its
  text, as its ordered map does (`KeyOf`). Nodes in the routing state are well-formed, and so is what a refresh
  installs; what a report in another spelling does to them is `ReportKeepsExactly`.
* The HTTP client, the clock that seeds discovery plans, and probes are an environment: any replies, in any order.
* A plan's index source is any deterministic generator (`Picker`); `GoPicker` is the one of the library, whose
  answers `Generator.Int31n` is proved to return, and `SeededPlan` is a plan object that draws from it.
* Health thresholds are the normalised ones that the store keeps, and the counters wrap at their C++ widths.

## Where the code and its documentation part

* The documentation says that a hash keeps its quarantined node until the node is promoted or goes down. The code
  also drops the entry when a lookup finds the node no longer first for the hash. `StickyChoiceCanBeDropped` is a run
  from construction that does so, for any two nodes; `StickyChoiceLastsExactly` says that over any run in which the
  node stays quarantined it is returned by every lookup if and only if it is first at each of them, and
  `FirstForHashIsRank` what being first means. `StickyChoiceLasts` is the case of unchanged active nodes.
* The documentation says that mappings are removed when the node leaves quarantine. With whole operations as steps
  that is an invariant (`EveryHistoryIsConsistent`), as long as reports spell nodes as the node list does: under
  another spelling a report can leave the entry behind (`OtherSpellingLeavesStaleEntry`, `ReportKeepsExactly`). With
  lock sections as steps, where a call that nobody interrupts does the same (`LookupAloneIsStick`,
  `ReportAloneIsObserve`), the agreement is broken for a moment by every report that moves a cached node
  (`AgreementIsKeptExactly`), but then a call is on its way to remove the entry. Entries are left behind for good
  exactly by a store that comes too late and by the result of a probe, sent while the node was Down, that moves a
  cached node (`CoverageIsKeptExactly`); `CacheCanGoStale` and `ProbeCanLeaveStaleEntry` are such runs from
  construction. Lookups stay correct all the same (`LookupsNeverServeStaleNodes`).
* The documentation offers fallback chains of scopes. A fetch falls back exactly past scopes in which every node
  answers with the empty list (`FallbackExactly`); one failing node among empty answers makes it throw although the
  next scope would find nodes (`FailedScopeDoesNotFallBack`).
* The parser differs from sections 2 and 7 of RFC 8259: its grammar allows every kind of white space of the C library
  between tokens (`AcceptsExactlyTheGrammar`), it takes raw control characters in strings
  (`RawCharactersAreAccepted`), and it rejects `\u` escapes (`UnicodeEscapesAreRejected`). An empty host in a reply
  passes it (`EmptyHostsPass`).

## Model

| member | source | states |
|---|---|---|
| Urls.ToStringIsInjective | src/uri.cpp:25-70 | two well-formed URLs print alike exactly if all their fields agree, brackets and port separator included |
| Urls.SiblingsCollideExactly | src/uri.cpp:25-70 | without any assumption on hosts: two nodes of one client print alike exactly if they are equal, both empty, or one host is the other in brackets |
| Urls.EqualitiesDisagree | src/uri.cpp:79-93 | `::1` and `[::1]`, and any two empty hosts, are different but print alike |
| Urls.LessIsStrictTotalOrder | src/uri.cpp:91-93 | the order is asymmetric and transitive on all URLs, and on well-formed ones total with `==` as its equivalence |
| Urls.LessIsTextOrder | src/uri.cpp:91-93 | one URL is less than another exactly if its text is a proper prefix of the other's, or has the smaller character where the two first differ |
| Urls.TextForms | src/uri.cpp:47-70 | how the parts are put together: no port if it is zero, no question mark without a query, nothing at all without a host |
| Urls.BracketForms | src/uri.cpp:25-57 | a host with a colon is bracketed unless it is already, and a port that is not zero follows a colon |
| Urls.DecimalDenotes | src/uri.cpp:47-57 | the digits of a port denote it, without leading zeros |
| NodeLists.SortAndDedupeIsStrict | src/query_plan.cpp:174-178 | the result has the input's members and is strictly sorted exactly if no two different input URLs print alike |
| NodeLists.SortedByText | src/query_plan.cpp:174-178 | of two nodes of the result the earlier one has the smaller text, character by character |
| NodeLists.SortAndDedupeDependsOnMembers | src/query_plan.cpp:174-178 | lists with the same members give the same result, free of repeats |
| NodeLists.StrictOrderIsUnique | src/query_plan.cpp:174-178 | a set has only one strictly sorted list |
| NodeLists.SortOfStrict | src/query_plan.cpp:155-163 | preparing a plan over sorted nodes leaves them as they are |
| NodeLists.AppendMissingNodes | src/key_route_affinity.cpp:160-166 | appends the non-empty nodes not yet present in first-seen order |
| NodeLists.NodesMissingFrom | src/key_route_affinity.cpp:168-178 | the non-empty nodes absent from the other list, once each, in first-seen order |
| NodeLists.DedupePreservingOrder | src/query_plan.cpp:43-55 | drops empty nodes and later repeats and keeps the order |
| NodeLists.CollectSpec | src/query_plan.cpp:43-55 | the append loops keep the prefix, add no repeats, and contain exactly the prefix and the wanted nodes |
| NodeLists.CollectComposes | src/query_plan.cpp:43-55 | appending two lists in turn is appending their concatenation, and an earlier result is a prefix of a later one: first-seen order |
| NodeHealth.StateIsDecidedByHistory | src/node_health.cpp:77-135 | after any observation history: Down exactly if the part after the last success has a connection failure or enough server errors; Active exactly if in addition every earlier failure was followed by a long enough run of successes; otherwise Quarantined |
| NodeHealth.CounterWidthIsInvisible | src/node_health.cpp:105-133 | wrap-around of the 32-bit counters never shows in the state: any wider counter gives the same states |
| NodeHealth.PromotionEndsSuccessRun | src/node_health.cpp:106-120 | a return to Active comes from Quarantined and ends a run of at least the success threshold of successes |
| NodeHealth.RecoveryLength | src/node_health.cpp:106-120 | an uninterrupted recovery from Down is Quarantined until, after exactly max(2, threshold) successes, it is Active |
| NodeHealth.ProbingQuarantinesTheResponsive | src/node_health.cpp:137-156 | probing keeps the known and the active nodes and moves exactly the responsive Down nodes to quarantine |
| NodeHealth.NodeHealthStore.constructor | src/node_health.cpp:24-38 | zero thresholds become one; the initial nodes are added one after the other, whatever their spelling |
| NodeHealth.AddedAllSpec | src/node_health.cpp:24-38 | for well-formed nodes that makes every initial node Active, once |
| NodeHealth.BracketedIsFound | src/node_health.cpp:68-75 | `[::1]` finds what was added as `::1` |
| NodeHealth.NodeHealthStore.GetNodeStatus | src/node_health.cpp:68-75 | the status of the key that prints like the node, if there is one |
| NodeHealth.NodeHealthStore.AddNode | src/node_health.cpp:77-87 | a node is added Active unless a key prints alike, and then nothing changes |
| NodeHealth.NodeHealthStore.RemoveNode | src/node_health.cpp:89-92 | forgets exactly the key that prints alike |
| NodeHealth.NodeHealthStore.ReportNodeResult | src/node_health.cpp:94-135 | one step of the health machine for the key that prints alike, nothing if there is none or when disabled |
| NodeHealth.NodeHealthStore.GetActiveNodes | src/node_health.cpp:40-52 | the sorted list of the Active nodes, or of all nodes when disabled |
| NodeHealth.NodeHealthStore.GetQuarantinedNodes | src/node_health.cpp:54-59 | the sorted list of the Quarantined nodes, none when disabled |
| NodeHealth.NodeHealthStore.GetDownNodes | src/node_health.cpp:61-66 | the sorted list of the Down nodes, none when disabled |
| NodeHealth.NodeHealthStore.ProbeDownNodes | src/node_health.cpp:137-156 | the loop probes every Down node once, changes nothing else, and returns the strictly sorted list of the responsive ones |
| GoRandom.SeedRandIsModularProduct | src/go_random.cpp:188-200 | Schrage's form is 48271 x modulo 2^31-1, and no intermediate leaves 32 bits |
| GoRandom.SeedRandIsBijection | src/go_random.cpp:188-200 | it is a bijection of 1 to 2^31-2, with an explicit inverse |
| GoRandom.SeedTermClosedForm | src/go_random.cpp:220-232 | the k-th seeding term is the k-th power of the multiplier times the start |
| GoRandom.SeededWordClosedForm | src/go_random.cpp:220-232 | word i is the exclusive or of power 21+3i of 48271 times the seed, shifted by 40 bits, power 22+3i shifted by 20 bits, power 23+3i and the constant |
| GoRandom.NormalisedSeedIsResidue | src/go_random.cpp:212-218 | C++ remainder and correction give the residue modulo 2^31-1, with 0 replaced |
| GoRandom.CongruentSeedsAgree | src/go_random.cpp:208-233 | seeds congruent modulo 2^31-1 give the same generator |
| GoRandom.FillTable | src/go_random.cpp:208-233 | the seeding loop, with its twenty warm-up steps, writes exactly that table |
| GoRandom.CursorsStayApart | src/go_random.cpp:235-247 | feed minus tap stays 334 modulo 607, and each call moves both cursors one cell back |
| GoRandom.RingStep | src/go_random.cpp:235-251 | on a ring whose cells hold the last outputs, the sum of the two cells is the next term of the plain recurrence and writing it keeps the ring right |
| GoRandom.OutputRecurrence | src/go_random.cpp:235-251 | the recurrence in numbers: outputs 607 and 273 calls before, and for the first calls the table words that stand in for them |
| GoRandom.Generator.Uint64 | src/go_random.cpp:235-251 | the n-th call returns the n-th term of the recurrence out(n) = out(n-607) + out(n-273), seeded words standing in for missing terms |
| GoRandom.Int31IsMiddleBits | src/go_random.cpp:253-259 | masking and shifting takes bits 32 to 62 of the word |
| GoRandom.Int31nIsUnbiased | src/go_random.cpp:261-275 | for every n and result r, exactly floor(2^31/n) of the 2^31 draws are accepted and give r, in both branches |
| GoRandom.MostDrawsAreAccepted | src/go_random.cpp:269-273 | more than half of all draws are accepted |
| GoRandom.PowerOfTwoTestIsExact | src/go_random.cpp:265-267 | the bit test lets through exactly the powers of two |
| GoRandom.Generator.constructor | src/go_random.cpp:204-233 | a new generator is a seeded ring |
| GoRandom.Generator.Int31n | src/go_random.cpp:261-275 | rejects n <= 0, else returns the residue of the first accepted draw and leaves the ring at that draw |
| Murmur3.FmixIsBijection | src/murmur3.cpp:33-40 | the finalizer is a bijection on 64-bit words with an explicit inverse |
| Murmur3.FmixClosedForm | src/murmur3.cpp:33-40 | the finalizer step by step in plain arithmetic, with its two constants |
| Murmur3.RotlIsRotation | src/murmur3.cpp:29-31 | shifting both ways and joining turns the word: its upper bits become its lower ones |
| Murmur3.MixingClosedForm | src/murmur3.cpp:59-71 | how the words of a block are scrambled, with constants and rotations |
| Murmur3.BlockClosedForm | src/murmur3.cpp:64-75 | one block in plain arithmetic, with constants and rotations |
| Murmur3.BlocksInOrder | src/murmur3.cpp:54-57 | block n takes bytes 16n to 16n+15, its first word the first eight |
| Murmur3.HashOfTail | src/murmur3.cpp:78-151 | a text shorter than a block: the padded first eight bytes go into h1, the others into h2 |
| Murmur3.FinishClosedForm | src/murmur3.cpp:140-151 | the length goes into both halves, which are added crosswise, finalized and added |
| Murmur3.SignedIsTwosComplement | src/murmur3.cpp:140-151 | the signed result is the 64-bit number that agrees with the word modulo 2^64 |
| Words.BitByBit | src/murmur3.cpp:29-48 | exclusive or, and, or work on each bit |
| Murmur3.ReadLittleEndian64 | src/murmur3.cpp:42-48 | the or-and-shift loop reads the number the eight bytes denote |
| Murmur3.MixTail | src/murmur3.cpp:78-138 | the fall-through switch equals padding the tail with zeros to sixteen bytes and mixing both words, for every tail |
| Murmur3.Murmur3H1Bytes | src/murmur3.cpp:50-151 | the whole hash equals the block fold with a padded tail, for every length |
| QueryPlans.PlanIsPermutation | src/query_plan.cpp:117-163 | in every mode the first calls return the input as a multiset, later calls the empty URL forever |
| QueryPlans.DrainIsPermutation | src/key_route_affinity.cpp:152-158 | draining returns the whole input exactly if no input node is empty |
| QueryPlans.ShuffleIsOneToOne | src/query_plan.cpp:145-153 | for distinct nodes, different index draws give different orders |
| QueryPlans.ShufflePermutes | src/query_plan.cpp:145-153 | whatever the draws, the outcome is a permutation of the nodes |
| QueryPlans.ShuffleIsOnto | src/query_plan.cpp:145-153 | every permutation is the outcome of some index draws |
| QueryPlans.DrainIsShuffle | src/query_plan.cpp:138-153 | a seeded plan is swap-with-last removal by the draws it makes |
| QueryPlans.NextFillsTheHole | src/query_plan.cpp:138-153 | one call returns the drawn node, the last node takes its place, and no other node moves |
| QueryPlans.FirstTwoResults | src/query_plan.cpp:138-153 | the first two results from the first two draws |
| QueryPlans.DrainOrderedNodes | src/query_plan.cpp:94-100 | an ordered plan returns its nodes in order, deduplicated |
| QueryPlans.TakePreferredNodes | src/query_plan.cpp:117-136 | for any nodes and any preferences the calls return the preferences that are honoured, in order, and then the other nodes sorted |
| QueryPlans.HonouredCounts | src/query_plan.cpp:120-130 | each node is honoured as often as it is both preferred and there, the empty URL never: empty, absent and repeated preferences are skipped |
| QueryPlans.DrainPreferredNodes | src/query_plan.cpp:86-92 | without empty nodes that order is drained completely |
| QueryPlans.DrawIndex | src/query_plan.cpp:145-148 | the index that the generator's `Int31n` returns is the answer of `GoPicker` to the requests made so far |
| QueryPlans.SeededOrderStartsWithFirst | src/query_plan.cpp:165-172 | a seeded plan over sorted nodes starts with what `FirstNodeWithSeed` names |
| QueryPlans.QueryPlan.PopNode | src/query_plan.cpp:33-41 | removes the first occurrence of the target and closes the gap, or nothing |
| QueryPlans.QueryPlan.Next | src/query_plan.cpp:117-163 | one call is one step of the plan function that `PlanIsPermutation`, `NextFillsTheHole` and `TakePreferredNodes` are about, in every mode |
| QueryPlans.SeededPlan.Next | src/query_plan.cpp:117-163 | a plan in random order that creates the generator at its first draw performs the steps of the plan function with `GoPicker`; the last node takes the place of the drawn one |
| QueryPlans.DrainPlan | src/key_route_affinity.cpp:152-158 | the loop collects exactly the drained sequence |
| Affinity.BatchWriteHashes | src/key_route_affinity.cpp:180-195 | the hashes of the usable operations in order |
| Affinity.HashesOfTheKeys | src/key_route_affinity.cpp:180-195 | hash k is that of the partition-key value of the k-th operation whose table has a key that the operation has a value for, and there are as many hashes as such operations |
| Affinity.HashOfTheKey | src/key_route_affinity.cpp:135-148 | a key is hashed exactly if the table has one and the values contain it, and then it is that value that is hashed |
| Affinity.HashAttributeValue | src/attribute_value.cpp:30-58 | the hash of the bytes after a byte for the type |
| Affinity.HashInputIsInjective | src/attribute_value.cpp:26-58 | values of different types or bytes are hashed from different inputs |
| Affinity.HashInputs | src/attribute_value.cpp:26-58 | the type bytes are 1, 2 and 3 |
| Affinity.QueryPlanForPartitionKey | src/key_route_affinity.cpp:265-280 | builds the specified plan from the active nodes and the nodes offered for the hash |
| Affinity.PartitionKeyPlanIsSamplesThenSeededOrder | src/key_route_affinity.cpp:265-280 | the plan is the sampled non-active nodes followed by the seeded order of the active nodes, without repeats |
| Affinity.SamplesOnlyPrecede | src/key_route_affinity.cpp:265-280 | deleting the samples leaves the unsampled plan, for any order and repeats in the active list |
| Affinity.PlanStartsWithFirst | src/query_plan.cpp:138-172 | the first active node of a key's plan is the one `FirstNodeWithSeed` names |
| Affinity.KeyPlanWithoutActive | src/key_route_affinity.cpp:265-272 | with no active node the plan is the seeded order of the offered nodes, whatever their order, and starts with the one `FirstNodeWithSeed` names |
| Affinity.CountVotes | src/key_route_affinity.cpp:223-238 | the voting loop counts, for each node, the usable operations whose key it is first for |
| Affinity.SelectBatchWritePreferredNodes | src/key_route_affinity.cpp:216-261 | fails without candidates or usable operations, else returns the voted nodes by votes descending, then by text |
| Affinity.RankingIsUnique | src/key_route_affinity.cpp:252-259 | the comparator ranks a set of nodes in only one way |
| Affinity.PreferredByVotesThenText | src/key_route_affinity.cpp:252-259 | of two preferred nodes the first has more votes, or as many and the smaller text |
| Affinity.VotesAreConserved | src/key_route_affinity.cpp:223-238 | the votes of the preferred nodes add up to the number of usable operations |
| Affinity.OneVoteForEachKey | src/key_route_affinity.cpp:223-238 | a node has one vote for each operation with a key whose hash names it first |
| Affinity.VotingIgnoresOperationOrder | src/key_route_affinity.cpp:216-261 | permuting the operations does not change the preferred nodes |
| Affinity.VotingIgnoresOtherAttributes | src/key_route_affinity.cpp:180-195 | attributes other than the partition key do not change the hashes |
| Affinity.QueryPlanForBatchWrite | src/key_route_affinity.cpp:288-305 | builds the specified batch plan or fails as specified |
| Affinity.BatchPlanShape | src/key_route_affinity.cpp:288-305 | the plan is samples, voted nodes by rank, other active nodes sorted; no repeats, nothing active missing |
| Affinity.BatchPlanWithoutActive | src/key_route_affinity.cpp:288-298 | with no active node the plan is the voted nodes by rank and then the other offered nodes sorted |
| Affinity.SingleOperationAgrees | src/key_route_affinity.cpp:265-305 | for one usable operation the batch plan and the single-key plan agree on the first active node |
| Affinity.BatchOfOneKey | src/key_route_affinity.cpp:288-305 | a batch of one operation with a key puts the node that the key's hash names first among the active nodes |
| LiveNodes.StepKeepsInvariant | src/live_nodes.cpp:192-284 | every elementary step keeps: list and store agree and are not empty, every cached node is quarantined |
| LiveNodes.ReportKeepsExactly | src/live_nodes.cpp:313-320 | a report under any spelling keeps the invariant if and only if it does not take a cached node out of quarantine under another spelling than its own |
| LiveNodes.InstallSpec | src/live_nodes.cpp:265-281 | after a refresh the membership is exactly the fetched nodes, and nodes that stay keep their status |
| LiveNodes.SampleSpec | src/live_nodes.cpp:458-482 | when a quarantined node is tried, which counters move, and that it is a quarantined node |
| LiveNodes.StickSpec | src/live_nodes.cpp:484-521 | a lookup changes only its own cache entry and the counters, and returns a quarantined node that is first for the hash, or nothing |
| RoutingTheorems.EveryRunIsConsistent | src/live_nodes.cpp:159-186 | after any sequence of steps from construction the store's keys are the non-empty sorted list and every cached hash names a quarantined node |
| RoutingTheorems.PlanNodesAreAvailable | src/live_nodes.cpp:228-237 | all active nodes and at most one quarantined node are offered, sorted, never a Down one, and something whenever a node is available |
| RoutingTheorems.NodesForHashAreAvailable | src/live_nodes.cpp:239-248 | the same for a hash, without repeats |
| RoutingTheorems.NodesForHashShape | src/live_nodes.cpp:239-248 | the sticky node first, if any, then the active nodes in order |
| RoutingTheorems.NextNodeIsAvailable | src/live_nodes.cpp:192-214 | a returned node is not Down; none is returned exactly if every known node was Down and its probe failed |
| RoutingTheorems.PartitionKeyPlanIsAvailable | src/key_route_affinity.cpp:265-280 | a key's plan has no Down node and is empty exactly if no node is available |
| RoutingTheorems.BatchPlanIsAvailable | src/key_route_affinity.cpp:197-305 | a batch plan has no Down node; it exists, and is then not empty, exactly if some operation is usable and some node is available |
| RoutingTheorems.EveryHashIsLookedUp | src/key_route_affinity.cpp:197-206 | every hash of a batch is looked up, in order, and what is offered for it is offered for the batch |
| RoutingTheorems.StickyChoiceLastsExactly | src/live_nodes.cpp:484-521 | over any run in which the cached node stays quarantined, every lookup for the hash returns it if and only if at each of them it is the first of itself and the nodes then active |
| RoutingTheorems.FirstForHashIsRank | src/live_nodes.cpp:149-155 | a node is first exactly if the generator's first answer for the hash is its rank among itself and the active nodes |
| RoutingTheorems.StickyChoiceLasts | src/live_nodes.cpp:484-521 | once a lookup returned q, at every moment of any run in which q stays quarantined and the active nodes stay the same a lookup puts q first and consumes nothing |
| RoutingTheorems.StickyChoiceCanBeDropped | src/live_nodes.cpp:487-497 | for any two nodes, a run from construction after which the entry of a node still quarantined is dropped |
| RoutingTheorems.OtherSpellingLeavesStaleEntry | src/live_nodes.cpp:313-320 | a failure reported under another spelling takes the cached node down and leaves its entry |
| RoutingTheorems.PromotionKeepsPreference | src/live_nodes.cpp:149-155 | if q is then promoted and nothing is quarantined, the key's plan over the enlarged active set still starts with q |
| RoutingTheorems.SamplingRate | src/live_nodes.cpp:458-473 | over any run that consumes m attempts from count a, exactly floor((a+m)/N) - floor(a/N) try a quarantined node |
| RoutingTheorems.RunHasStates | src/live_nodes.cpp:192-284 | every sequence of allowed steps is such a run |
| RoutingTheorems.RoundRobin | src/live_nodes.cpp:208-214 | over any run without NextKnownNode in which the active nodes stay the same and none is quarantined, whatever else happens, the NextNode results go round the active nodes; any k in a row are a permutation of the k nodes |
| RoutingTheorems.KnownRoundRobin | src/live_nodes.cpp:449-456 | over any run without NextNode in which the node list stays the same, whatever the nodes' health, the NextKnownNode results go round the list |
| RoutingTheorems.QuarantinedNodesTakeTurns | src/live_nodes.cpp:475-482 | over any run in which the same k nodes stay quarantined, the samples of NextNode, plans and lookups go round them; any k in a row take each once |
| Discovery.FailedRefreshKeepsMembership | src/live_nodes.cpp:258-263 | a refresh that throws or finds nothing leaves list and membership unchanged, whatever the replies were |
| Discovery.RefreshInstallsWhatItFound | src/live_nodes.cpp:258-284 | otherwise the membership is exactly what was found; new nodes are fresh, nodes that stay and were Down have been probed once, the others keep their status |
| Discovery.RefreshWithoutFind | src/live_nodes.cpp:258-263 | a refresh that finds nothing probes the Down nodes all the same, one that throws does not |
| Discovery.ProbesDecide | src/live_nodes.cpp:322-331 | a probed node is quarantined exactly if it answered with a status below 500, and else stays Down |
| Discovery.NextNodeIsEmptyExactly | src/live_nodes.cpp:192-214 | NextNode returns nothing exactly if every known node is Down and none answers its probe with a status below 500 |
| Discovery.BlameCounts | src/live_nodes.cpp:408-420 | in a refresh no reply takes the node Down, a status of 500 or more counts one server error, any other failure counts as a success |
| Discovery.ReplyNamesNodes | src/live_nodes.cpp:437-447 | a reply is a node list exactly if its status is 200 and its body parses, and then names exactly the nodes of its hosts |
| Discovery.OrderAsksEveryone | src/live_nodes.cpp:430-435 | cluster scope asks all initial nodes, other scopes all nodes of a general plan |
| Discovery.EveryHistoryIsConsistent | src/live_nodes.cpp:159-284 | the consistency of list, store and cache after any history of public operations in which reports spell nodes in a well-formed way and refreshes find well-formed nodes |
| Discovery.TruthfulRepliesSuffice | src/live_nodes.cpp:258-263 | a refresh finds well-formed nodes if every reply names only well-formed hosts |
| Discovery.NextNodeIsItsSteps | src/live_nodes.cpp:192-214 | NextNode is its elementary steps |
| Discovery.ClusterVisitAsksEveryone | src/live_nodes.cpp:396-427 | in cluster scope every node of the plan is asked, all lists are merged and exactly the failing nodes are blamed |
| Discovery.ScopedVisitTakesTheFirst | src/live_nodes.cpp:396-427 | outside it the first non-empty list is the result and exactly the nodes failing before it are blamed; without one the visit throws exactly if some node failed |
| Discovery.VisitOutcome | src/live_nodes.cpp:396-427 | a scope yields nothing exactly if every node answers with the empty list, and throws exactly if some node fails and none names a node |
| Discovery.FallbackExactly | src/live_nodes.cpp:378-388 | a fetch throws, or finds nothing, exactly if after scopes in which every node answers with the empty list comes one with failures and no node to offer, or no scope is left |
| Discovery.FailedScopeDoesNotFallBack | src/live_nodes.cpp:378-388 | two nodes of which one fails and one answers with the empty list: the fetch throws although the next scope finds a node |
| Discovery.ClusterDiscoveryIgnoresOrder | src/live_nodes.cpp:396-427 | what cluster discovery finds does not depend on the random order of its plan |
| Discovery.WellFormedHosts | src/live_nodes.cpp:132-139 | a reply gives well-formed nodes exactly if each host is non-empty and free of delimiters |
| Discovery.EmptyHostsPass | src/live_nodes.cpp:437-447 | the reply `[""]` is accepted and becomes one node that counts as no node |
| LiveNodesClient.GetNodesFromEndpoint | src/live_nodes.cpp:437-447 | how a reply becomes a node list or one of the three failures |
| LiveNodesClient.AlternatorLiveNodes.constructor | src/live_nodes.cpp:159-186 | the initial nodes are listed sorted and all Active, the cache is empty and the counters are zero |
| LiveNodesClient.AlternatorLiveNodes.RemoveQuarantineHashAssignmentsForNode | src/live_nodes.cpp:523-532 | the erasing loop removes exactly the entries of this node |
| LiveNodesClient.AlternatorLiveNodes.ReportNodeResult | src/live_nodes.cpp:313-320 | the health step of the node that prints alike and the cleaning of the cache, which keep the object valid exactly if the report does not misspell a cached node; for well-formed nodes the elementary step |
| LiveNodesClient.AlternatorLiveNodes.ProbeDownNodes | src/live_nodes.cpp:322-331 | after probing, a node that was Down is quarantined and returned exactly if it answered with a status below 500, and else still Down |
| LiveNodesClient.AlternatorLiveNodes.ShouldTryQuarantinedNode | src/live_nodes.cpp:458-473 | the sampling decision and its counter |
| LiveNodesClient.AlternatorLiveNodes.NextQuarantinedNode | src/live_nodes.cpp:475-482 | the quarantined node whose turn it is |
| LiveNodesClient.AlternatorLiveNodes.NextNode | src/live_nodes.cpp:192-214 | result and new state are those of the step function that `NextNodeIsAvailable`, `SamplingRate` and `RoundRobin` are about, probing included; nothing is returned exactly if all nodes are Down and no reply has a status below 500 |
| LiveNodesClient.AlternatorLiveNodes.GetQueryPlanNodes | src/live_nodes.cpp:228-237 | result and new state are those of the step that `PlanNodesAreAvailable` is about |
| LiveNodesClient.AlternatorLiveNodes.StickyQuarantinedNodeForHash | src/live_nodes.cpp:484-521 | result and new state are those of the lookup that `StickSpec` and `StickyChoiceLasts` are about |
| LiveNodesClient.AlternatorLiveNodes.GetQueryPlanNodesForHash | src/live_nodes.cpp:239-248 | result and new state are those of the step that `NodesForHashAreAvailable` and `NodesForHashShape` are about |
| LiveNodesClient.AlternatorLiveNodes.NextKnownNode | src/live_nodes.cpp:449-456 | a known node, whatever its health, by the same counter as the round robin |
| LiveNodesClient.AlternatorLiveNodes.PlanForKey | src/key_route_affinity.cpp:265-280 | the plan of a key against the live nodes |
| LiveNodesClient.AlternatorLiveNodes.PlanForPartitionKey | src/key_route_affinity.cpp:265-280 | fails exactly if the operation has no key, and else is the plan for the hash of the key's value |
| LiveNodesClient.AlternatorLiveNodes.QueryPlanNodesForHashes | src/key_route_affinity.cpp:197-206 | the union of what is offered for the hashes, in first-seen order, or the general list |
| LiveNodesClient.AlternatorLiveNodes.PlanForBatch | src/key_route_affinity.cpp:288-305 | the plan of a batch against the live nodes, the one `BatchPlanIsAvailable` is about |
| LiveNodesClient.AlternatorLiveNodes.InstallNodes | src/live_nodes.cpp:265-281 | the three loops that install fetched nodes perform the install step |
| LiveNodesClient.AlternatorLiveNodes.GetNodesForScope | src/live_nodes.cpp:390-428 | outcome and steps of asking one scope |
| LiveNodesClient.AlternatorLiveNodes.AskAll | src/live_nodes.cpp:396-427 | the loop over the discovery plan: first non-empty list, or the merged lists in cluster scope, blame for failures |
| LiveNodesClient.AlternatorLiveNodes.FetchLiveNodes | src/live_nodes.cpp:378-388 | the fallback loop |
| LiveNodesClient.AlternatorLiveNodes.UpdateLiveNodes | src/live_nodes.cpp:258-284 | a refresh performs exactly its steps, also when it throws |
| LockSections.LookupsNeverServeStaleNodes | src/live_nodes.cpp:484-521 | however calls interleave, a node a lookup returns was quarantined at some moment after the call began and before it returned |
| LockSections.LookupAloneIsStick | src/live_nodes.cpp:484-521 | a lookup that no other call interrupts returns and changes what the lookup of the whole-operation model does |
| LockSections.ReportAloneIsObserve | src/live_nodes.cpp:313-320 | the same for a report |
| LockSections.RemovalAloneForgets | src/live_nodes.cpp:265-281 | a removal alone forgets the node and exactly its entries |
| LockSections.ProbeAloneRecords | src/node_health.cpp:137-156 | a probe alone records its result and leaves the cache alone |
| LockSections.AgreementIsKeptExactly | src/live_nodes.cpp:313-320 | an event keeps cache and health in agreement if and only if it neither stores a node that is not quarantined any more, nor records for a cached node a connection failure, the server error or success that reaches a threshold, or its removal |
| LockSections.CoverageIsKeptExactly | src/live_nodes.cpp:313-331 | every event keeps each entry right or about to be removed by a call, except exactly a late store and the result of a probe that moves a cached node, when no call is about to remove it |
| LockSections.CacheAgreesWhenQuiet | src/live_nodes.cpp:313-331 | so in every run from an empty cache without such events the cache agrees with the health states whenever no call has cleaning up to do |
| LockSections.CacheCanGoStale | src/live_nodes.cpp:506-520 | a run from construction after which the cache names a Down node and no call is left to remove it |
| LockSections.ProbeCanLeaveStaleEntry | src/node_health.cpp:137-156 | the same by a probe that was sent while the node was Down and fails after the node was quarantined and remembered |
| LocalNodesJson.AcceptsExactlyTheGrammar | src/live_nodes.cpp:42-130 | accepted with a list exactly if the text is a padded array of quoted strings with the eight escapes that denotes this list |
| LocalNodesJson.ParseUndoesPrint | src/live_nodes.cpp:42-130 | parsing what a printer that escapes quotes and backslashes wrote returns the list |
| LocalNodesJson.RawCharactersAreAccepted | src/live_nodes.cpp:74-111 | any string without quotes and backslashes may be written as it is, control characters included |
| LocalNodesJson.UnicodeEscapesAreRejected | src/live_nodes.cpp:74-111 | a `\u` escape in any string of the array makes the whole text rejected |
| LocalNodesJson.OtherEscapesAreRejected | src/live_nodes.cpp:74-111 | so does a backslash before any other character than the eight |
| LocalNodesJson.EscapesDenote | src/live_nodes.cpp:74-111 | the character that each of the eight escapes denotes, by its number |
| LocalNodesJson.SpaceBeforeArray | src/live_nodes.cpp:46-50 | space is what has number 9 to 13 or 32 |
| LocalNodesJson.ScanString | src/live_nodes.cpp:72-111 | the inner loop reads the string the recursive parser reads; an unterminated one ends at the end of input |
| LocalNodesJson.ScanItems | src/live_nodes.cpp:71-123 | the outer loop reads the items the recursive parser reads |
| LocalNodesJson.ParseJsonStringArray | src/live_nodes.cpp:42-130 | the loops end and return exactly what the recursive parser returns |
| ContentEncoding.ParseContentEncodings | src/http_compression.cpp:178-196 | the loop returns the trimmed, lower-case, non-empty elements in order |
| ContentEncoding.ParsingIgnoresSpelling | src/http_compression.cpp:46-58 | any casing, padding and empty elements parse to the codings meant |
| ContentEncoding.LowerLetters | src/http_compression.cpp:276-285 | only the letters A to Z change, each to its small letter |
| ContentEncoding.ParseExample | src/http_compression.cpp:178-196 | `GZIP , ,br` is gzip and br |
| ContentEncoding.BuildDecoderEntries | src/http_compression.cpp:214-243 | the loops build the table that `DecoderEntriesExactly` describes, or fail as it says |
| ContentEncoding.DecoderEntriesExactly | src/http_compression.cpp:214-243 | the table is built exactly if every decoder is there and has a name and all normalized names are non-empty and distinct, and then holds these names in order, each with its decoder |
| ContentEncoding.TableIsGood | src/http_compression.cpp:214-243 | names in the table are normalized, non-empty and distinct |
| ContentEncoding.DecodeHttpResponseBody | src/http_compression.cpp:390-412 | decoding last to first, with its failures |
| ContentEncoding.DecodingUndoesEncoding | src/http_compression.cpp:390-412 | if every decoder inverts its encoder, a body encoded in the listed order is restored, however the header spells the list |
| ContentEncoding.LastListedIsUndoneFirst | src/http_compression.cpp:390-412 | of two codings with `identity` between them the last one is undone first, by the decoder with its name |
| ContentEncoding.UnknownCodingFails | src/http_compression.cpp:390-412 | a header that names a coding nobody advertised makes decoding fail, whatever the body |
| ContentEncoding.BuildAcceptEncodingValue | src/http_compression.cpp:287-297 | the advertised names joined in table order |
| ContentEncoding.JoinedForms | src/http_compression.cpp:287-297 | the names are separated by a comma and a space |
| ContentEncoding.AcceptValueRoundTrip | src/http_compression.cpp:287-297 | parsing the advertised value returns the names in order exactly if no name contains a comma |
| Redaction.Redact | scripts/release/guard.py:113-125 | over sorted spans, overlapping, touching or empty: uncovered bytes are kept in order and each maximal covered run becomes one marker |
| Redaction.OutputRevealsOnlyUncoveredBytes | scripts/release/guard.py:96-125 | data that differ only in covered bytes, and span lists that cover the same bytes, redact alike |
| Redaction.OutputLength | scripts/release/guard.py:113-125 | one byte for each uncovered byte and one marker for each maximal run |
| Redaction.CoveredTextBecomesTheMarker | scripts/release/guard.py:113-125 | a text covered from beginning to end becomes the one marker |

## Left out

- BackgroundLoop, Start, Stop, MarkActivity and the refresh schedule: thread timing and clocks.
- The HTTP client, TLS and zlib: foreign calls; replies are an environment, decoders are given functions.
- The AWS adapter: SDK plumbing and request conversion.
- ValidateConfig, header allowlists, routing-scope formatting, DoesWriteNeedReadBeforeWrite: each is settled by reading one branch.
- CheckIfRackAndDatacenterSetCorrectly and CheckIfRackDatacenterFeatureIsSupported: they ask scopes and nodes as a refresh does and compare sizes.
- The values of the 607 table constants: a parameter; no statement depends on them.
- Secret forms and regular expressions of `redact`: the spans arrive as the sorted list that `heapq.merge` yields.
- GoRandom.Generator.Int31n: asks that an accepted draw arrives, since whether a concrete stream ever yields one is not decided here; `MostDrawsAreAccepted` bounds how rare a rejection is.
- QueryPlans.QueryPlan.Next: the generator is any deterministic index source, and list sizes are not cut to 32 bits.
- RoutingTheorems.SamplingRate: the attempt counter must not wrap around 2^64 within the run.
- RoutingTheorems.RoundRobin: the node counter must not wrap around 2^64 within the round.
- RoutingTheorems.QuarantinedNodesTakeTurns: the turn counter must not wrap around 2^64 within the run.
- QueryPlans.DrawIndex: asks, like `Int31n`, that an accepted draw arrives.
- QueryPlans.SeededPlan.Next: the same.
- NodeLists.SortAndDedupeIsStrict: for URLs that print alike `std::sort` leaves the order open; `SortNodes` fixes one.
- QueryPlans.TakePreferredNodes: the same for the order of the remaining nodes.
- LiveNodesClient.AlternatorLiveNodes.constructor: initial hosts that are empty or bracketed, or contain a slash or question mark, are outside the model of the routing state, because two of them can be one key of the store.
- LiveNodesClient.AlternatorLiveNodes.UpdateLiveNodes: a refresh that would install such hosts is outside the model; `WellFormedHosts` says which replies name them.
- LiveNodesClient.AlternatorLiveNodes.InstallNodes: the same.
- LiveNodesClient.AlternatorLiveNodes.AskAll: the same for the nodes of the discovery plan, which are initial nodes or known ones.
- Discovery.EveryHistoryIsConsistent: the same for the refreshes of a history.
- Affinity.CountVotes: candidates that are not well-formed are outside the model, because votes are counted by text and candidates compared by fields.
- Affinity.SelectBatchWritePreferredNodes: the same, and vote counts are not cut to 32 bits.
- Affinity.QueryPlanForBatchWrite: the same.
- LockSections: what a refresh does for one node, adding it or removing it, and each probe of one round are calls of their own, without the order that a refresh or a round keeps among its nodes; this allows more interleavings than the code has. Reports spell nodes as the node list does.
