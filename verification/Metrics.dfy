/** The verdict on a cluster, from its connections, its cross-discovery and its tombstones. */
module Metrics {
  import opened Text
  import opened Events
  import opened Topology

  type Results = JsMap<string, seq<string>>

  const NO_RESULTS: Results := JsMap([], map[])

  /** One lookup of a key through a node: the value found; None for a null answer and for a failed query. */
  type Lookup = (Node, string) -> Option<string>

  function DhtKey(network: string, protocol: string, peerId: string): string {
    "/bpb/v2/" + network + "/" + protocol + "/" + peerId
  }

  predicate Routes(n: Node) { n.libp2p.Some? && n.libp2p.value.contentRouting }

  // ----- verifyCrossDiscovery -----

  /** What the harness looks up, and where. */
  datatype Query = Query(network: string, protocol: string, lookup: Lookup) {
    predicate Finds(querier: Node, target: Node) {
      lookup(querier, DhtKey(network, protocol, target.peerId)).Some?
    }
  }

  function DiscoveredBy(q: Query, querier: Node, targets: seq<Node>): seq<string> {
    if targets == [] then []
    else
      var t := targets[|targets| - 1];
      DiscoveredBy(q, querier, targets[..|targets| - 1])
      + if t.peerId != querier.peerId && q.Finds(querier, t) then [t.peerId] else []
  }

  function ResultOf(q: Query, querier: Node, nodes: seq<Node>): seq<string> {
    if Routes(querier) then DiscoveredBy(q, querier, nodes) else []
  }

  function CrossDiscovery(q: Query, queriers: seq<Node>, nodes: seq<Node>): Results {
    if queriers == [] then NO_RESULTS
    else
      var querier := queriers[|queriers| - 1];
      CrossDiscovery(q, queriers[..|queriers| - 1], nodes).Set(querier.peerId, ResultOf(q, querier, nodes))
  }

  method Discover(q: Query, querier: Node, nodes: seq<Node>) returns (discovered: seq<string>)
    ensures discovered == DiscoveredBy(q, querier, nodes)
  {
    discovered := [];
    for i := 0 to |nodes|
      invariant discovered == DiscoveredBy(q, querier, nodes[..i])
    {
      assert nodes[..i + 1][..i] == nodes[..i];
      var target := nodes[i];
      if target.peerId == querier.peerId { continue; }
      if q.Finds(querier, target) {
        discovered := discovered + [target.peerId];
      }
    }
    assert nodes[..|nodes|] == nodes;
  }

  method VerifyCrossDiscovery(q: Query, nodes: seq<Node>) returns (results: Results)
    ensures results == CrossDiscovery(q, nodes, nodes)
  {
    results := NO_RESULTS;
    for i := 0 to |nodes|
      invariant results == CrossDiscovery(q, nodes[..i], nodes)
    {
      assert nodes[..i + 1][..i] == nodes[..i];
      var querier := nodes[i];
      if !Routes(querier) {
        results := results.Set(querier.peerId, []);
        continue;
      }
      var discovered := Discover(q, querier, nodes);
      results := results.Set(querier.peerId, discovered);
    }
    assert nodes[..|nodes|] == nodes;
  }

  /** How many entries of the list the querier skips as itself, and how many it looks for in vain. */
  function Own(querier: Node, targets: seq<Node>): nat {
    if targets == [] then 0
    else
      var t := targets[|targets| - 1];
      Own(querier, targets[..|targets| - 1]) + if t.peerId == querier.peerId then 1 else 0
  }

  function Missed(q: Query, querier: Node, targets: seq<Node>): nat {
    if targets == [] then 0
    else
      var t := targets[|targets| - 1];
      Missed(q, querier, targets[..|targets| - 1]) + if t.peerId != querier.peerId && !q.Finds(querier, t) then 1 else 0
  }

  lemma {:induction false} EveryTargetCounted(q: Query, querier: Node, targets: seq<Node>)
    ensures |DiscoveredBy(q, querier, targets)| + Missed(q, querier, targets) + Own(querier, targets) == |targets|
  {
    if targets != [] { EveryTargetCounted(q, querier, targets[..|targets| - 1]); }
  }

  lemma {:induction false} OwnCount(querier: Node, targets: seq<Node>)
    ensures querier in targets ==> Own(querier, targets) >= 1
    ensures Distinct(IdsOf(targets)) ==> Own(querier, targets) <= 1
    ensures querier.peerId !in IdsOf(targets) ==> Own(querier, targets) == 0
  {
    if targets != [] {
      var init, t := targets[..|targets| - 1], targets[|targets| - 1];
      assert targets == init + [t];
      assert IdsOf(targets) == IdsOf(init) + [t.peerId];
      OwnCount(querier, init);
    }
  }

  lemma {:induction false} MissedNone(q: Query, querier: Node, targets: seq<Node>)
    ensures Missed(q, querier, targets) == 0
      <==> forall t :: t in targets && t.peerId != querier.peerId ==> q.Finds(querier, t)
  {
    if targets != [] {
      var init, t := targets[..|targets| - 1], targets[|targets| - 1];
      assert targets == init + [t];
      MissedNone(q, querier, init);
    }
  }

  lemma {:induction false} ResultBound(q: Query, querier: Node, nodes: seq<Node>)
    requires querier in nodes
    ensures |ResultOf(q, querier, nodes)| <= |nodes| - 1
  {
    EveryTargetCounted(q, querier, nodes);
    OwnCount(querier, nodes);
  }

  ghost predicate FindsAllOthers(q: Query, querier: Node, nodes: seq<Node>) {
    Routes(querier) && forall t :: t in nodes && t.peerId != querier.peerId ==> q.Finds(querier, t)
  }

  lemma {:induction false} ResultFull(q: Query, querier: Node, nodes: seq<Node>)
    requires querier in nodes && Distinct(IdsOf(nodes)) && |nodes| > 1
    ensures |ResultOf(q, querier, nodes)| == |nodes| - 1 <==> FindsAllOthers(q, querier, nodes)
  {
    EveryTargetCounted(q, querier, nodes);
    OwnCount(querier, nodes);
    MissedNone(q, querier, nodes);
  }

  // ----- discoveryScore -----

  function SumLengths(values: seq<seq<string>>): nat {
    if values == [] then 0 else SumLengths(values[..|values| - 1]) + |values[|values| - 1]|
  }

  /** Every list has this length. */
  ghost predicate Full(values: seq<seq<string>>, m: nat) { forall i :: 0 <= i < |values| ==> |values[i]| == m }

  lemma {:induction false} SumBound(values: seq<seq<string>>, m: nat)
    requires forall i :: 0 <= i < |values| ==> |values[i]| <= m
    ensures SumLengths(values) <= |values| * m
    ensures SumLengths(values) == |values| * m <==> Full(values, m)
  {
    if values != [] {
      var init := values[..|values| - 1];
      assert values == init + [values[|values| - 1]];
      SumBound(init, m);
      assert |values| * m == |init| * m + m;
    }
  }

  lemma {:induction false} CrossDiscoveryAre(q: Query, queriers: seq<Node>, nodes: seq<Node>)
    ensures var r := CrossDiscovery(q, queriers, nodes);
      && r.Valid()
      && |r.order| <= |queriers|
      && (forall id :: id in r.order <==> id in IdsOf(queriers))
      && (forall id :: id in r.data ==> exists n :: n in queriers && r.data[id] == ResultOf(q, n, nodes))
  {
    if queriers != [] {
      var init, n := queriers[..|queriers| - 1], queriers[|queriers| - 1];
      assert queriers == init + [n];
      assert IdsOf(queriers) == IdsOf(init) + [n.peerId];
      CrossDiscoveryAre(q, init, nodes);
    }
  }

  /** Setting a new id appends it and leaves the others as they were. */
  lemma {:induction false} SetNew(r: Results, id: string, found: seq<string>)
    requires r.Valid() && id !in r.order
    ensures var r' := r.Set(id, found);
      r'.order == r.order + [id] && r'.data[id] == found
      && forall other :: other in r.order ==> other in r'.data && r'.data[other] == r.data[other]
  {
  }

  ghost predicate HoldsResults(r: Results, q: Query, queriers: seq<Node>, nodes: seq<Node>) {
    && r.Valid()
    && r.order == IdsOf(queriers)
    && forall i :: 0 <= i < |queriers| ==> r.data[r.order[i]] == ResultOf(q, queriers[i], nodes)
  }

  lemma {:induction false} HoldsOneMore(r: Results, q: Query, init: seq<Node>, n: Node, nodes: seq<Node>)
    requires HoldsResults(r, q, init, nodes) && n.peerId !in r.order
    ensures HoldsResults(r.Set(n.peerId, ResultOf(q, n, nodes)), q, init + [n], nodes)
  {
    var r' := r.Set(n.peerId, ResultOf(q, n, nodes));
    SetNew(r, n.peerId, ResultOf(q, n, nodes));
    assert r'.order == IdsOf(init + [n]);
    forall i | 0 <= i < |init| + 1 ensures r'.data[r'.order[i]] == ResultOf(q, (init + [n])[i], nodes) {
      if i < |init| { assert r'.order[i] == r.order[i] && r.order[i] in r.order; }
    }
  }

  lemma {:induction false} CrossDiscoveryDistinct(q: Query, queriers: seq<Node>, nodes: seq<Node>)
    requires Distinct(IdsOf(queriers))
    ensures HoldsResults(CrossDiscovery(q, queriers, nodes), q, queriers, nodes)
  {
    if queriers != [] {
      var init, n := queriers[..|queriers| - 1], queriers[|queriers| - 1];
      assert queriers == init + [n];
      assert IdsOf(queriers) == IdsOf(init) + [n.peerId];
      CrossDiscoveryDistinct(q, init, nodes);
      HoldsOneMore(CrossDiscovery(q, init, nodes), q, init, n, nodes);
    }
  }

  function DiscoveryScore(results: Results, totalNodes: nat): real
    requires results.Valid()
  {
    var possible := totalNodes * (totalNodes - 1);
    if possible > 0 then SumLengths(results.Values()) as real / possible as real else 0.0
  }

  lemma {:induction false} ProductMonotone(a: nat, b: nat, c: nat)
    requires a <= b
    ensures a * c <= b * c
  {
  }

  /** n lists of at most n - 1 entries hold at most n(n - 1), and exactly that only if all are full. */
  lemma {:induction false} ListsScore(values: seq<seq<string>>, n: nat)
    requires |values| <= n && n > 1 && forall i :: 0 <= i < |values| ==> |values[i]| <= n - 1
    ensures SumLengths(values) <= n * (n - 1) && n * (n - 1) > 0
    ensures |values| == n ==>
      (SumLengths(values) == n * (n - 1) <==> Full(values, n - 1))
  {
    SumBound(values, n - 1);
    ProductMonotone(|values|, n, n - 1);
    ProductMonotone(1, n, n - 1);
  }

  lemma {:induction false} DiscoveryScoreIs(results: Results, n: nat)
    requires results.Valid() && n * (n - 1) > 0 && SumLengths(results.Values()) <= n * (n - 1)
    ensures 0.0 <= DiscoveryScore(results, n) <= 1.0
    ensures DiscoveryScore(results, n) == 1.0 <==> SumLengths(results.Values()) == n * (n - 1)
  {
    FractionAtMostOne(SumLengths(results.Values()) as real, (n * (n - 1)) as real);
  }

  lemma {:induction false} ResultsBounded(q: Query, nodes: seq<Node>, results: Results)
    requires results == CrossDiscovery(q, nodes, nodes)
    ensures results.Valid() && |results.order| <= |nodes|
    ensures forall i :: 0 <= i < |results.Values()| ==> |results.Values()[i]| <= |nodes| - 1
  {
    CrossDiscoveryAre(q, nodes, nodes);
    forall i | 0 <= i < |results.Values()| ensures |results.Values()[i]| <= |nodes| - 1 {
      assert results.order[i] in results.data;
      var querier :| querier in nodes && results.data[results.order[i]] == ResultOf(q, querier, nodes);
      ResultBound(q, querier, nodes);
    }
  }

  /** Whatever the lookups answer, and even if ids repeat, the score is a fraction. */
  lemma {:induction false} DiscoveryIsFraction(q: Query, nodes: seq<Node>, results: Results)
    requires results == CrossDiscovery(q, nodes, nodes)
    ensures results.Valid()
    ensures 0.0 <= DiscoveryScore(results, |nodes|) <= 1.0
  {
    ResultsBounded(q, nodes, results);
    if |nodes| > 1 {
      ListsScore(results.Values(), |nodes|);
      DiscoveryScoreIs(results, |nodes|);
    }
  }

  lemma {:induction false} ResultsFull(q: Query, nodes: seq<Node>, results: Results)
    requires results == CrossDiscovery(q, nodes, nodes) && Distinct(IdsOf(nodes)) && |nodes| > 1
    ensures results.Valid() && |results.Values()| == |nodes|
    ensures forall i :: 0 <= i < |nodes| ==>
      (|results.Values()[i]| == |nodes| - 1 <==> FindsAllOthers(q, nodes[i], nodes))
  {
    CrossDiscoveryDistinct(q, nodes, nodes);
    forall i | 0 <= i < |nodes|
      ensures |results.Values()[i]| == |nodes| - 1 <==> FindsAllOthers(q, nodes[i], nodes)
    {
      ResultFull(q, nodes[i], nodes);
    }
  }

  ghost predicate EveryoneFinds(q: Query, nodes: seq<Node>) {
    forall n :: n in nodes ==> FindsAllOthers(q, n, nodes)
  }

  lemma {:induction false} AllFull(values: seq<seq<string>>, q: Query, nodes: seq<Node>)
    requires |values| == |nodes| > 0
    requires forall i :: 0 <= i < |nodes| ==> (|values[i]| == |nodes| - 1 <==> FindsAllOthers(q, nodes[i], nodes))
    ensures Full(values, |nodes| - 1) <==> EveryoneFinds(q, nodes)
  {
    if EveryoneFinds(q, nodes) {
      assert forall i :: 0 <= i < |nodes| ==> nodes[i] in nodes;
    }
  }

  /** Full marks exactly when every node could query and found every other node. */
  lemma {:induction false} DiscoveryOneIff(q: Query, nodes: seq<Node>, results: Results)
    requires results == CrossDiscovery(q, nodes, nodes) && Distinct(IdsOf(nodes)) && |nodes| > 1
    ensures results.Valid()
    ensures DiscoveryScore(results, |nodes|) == 1.0 <==> EveryoneFinds(q, nodes)
  {
    ResultsBounded(q, nodes, results);
    ResultsFull(q, nodes, results);
    AllFull(results.Values(), q, nodes);
    ListsScore(results.Values(), |nodes|);
    DiscoveryScoreIs(results, |nodes|);
  }

  // ----- verifyTombstone -----

  predicate Includes(s: string, part: string) {
    if |s| < |part| then false else part <= s || (s != "" && Includes(s[1..], part))
  }

  predicate IsTombstone(value: string) { Includes(value, "\"tombstone\"") || Includes(value, "\"dead\"") }

  /** What a surviving node still finds under the dead node's key. */
  function Remains(q: Query, survivor: Node, peerId: string): Option<string> {
    if Routes(survivor) then q.lookup(survivor, DhtKey(q.network, q.protocol, peerId)) else None
  }

  datatype TombstoneResult = TombstoneResult(deadNodeAbsentFromDHT: bool, staleRecordCount: nat)

  predicate Stale(q: Query, survivor: Node, peerId: string) {
    var v := Remains(q, survivor, peerId);
    v.Some? && !IsTombstone(v.value)
  }

  function StaleCount(q: Query, survivors: seq<Node>, peerId: string): nat {
    if survivors == [] then 0
    else
      var n := |survivors| - 1;
      StaleCount(q, survivors[..n], peerId) + if Stale(q, survivors[n], peerId) then 1 else 0
  }

  function TombstoneOf(q: Query, survivors: seq<Node>, peerId: string): TombstoneResult {
    TombstoneResult(forall s :: s in survivors ==> Remains(q, s, peerId) == None, StaleCount(q, survivors, peerId))
  }

  method VerifyTombstone(q: Query, dead: Node, survivors: seq<Node>) returns (r: TombstoneResult)
    ensures r == TombstoneOf(q, survivors, dead.peerId)
  {
    var key, stale, absent := DhtKey(q.network, q.protocol, dead.peerId), 0, true;
    for i := 0 to |survivors|
      invariant absent <==> forall j :: 0 <= j < i ==> Remains(q, survivors[j], dead.peerId) == None
      invariant stale == StaleCount(q, survivors[..i], dead.peerId)
    {
      assert survivors[..i + 1][..i] == survivors[..i];
      var survivor := survivors[i];
      if !Routes(survivor) { continue; }
      var value := q.lookup(survivor, key);
      if value.Some? {
        if !IsTombstone(value.value) { stale := stale + 1; }
        absent := false;
      }
    }
    assert survivors[..|survivors|] == survivors;
    r := TombstoneResult(absent, stale);
  }

  // ----- computeMetrics -----

  datatype Health = GREEN | YELLOW | RED

  datatype Verdict = Verdict(
    connectivityScore: real, discoveryScore: real, tombstoneScore: real, staleRecordCount: nat, isolatedCount: nat,
    health: Health, peerCounts: map<string, nat>)

  function Max(a: real, b: real): real { if a > b then a else b }

  function Min(a: real, b: real): real { if a < b then a else b }

  /** Every isolated node costs 0.15. */
  function Connectivity(t: Snapshot): real {
    Max(0.0, Min(1.0, t.connectivityScore - |t.isolatedPeerIds| as real * 0.15))
  }

  function TombstoneScore(r: TombstoneResult): real {
    Max(0.0, (if r.deadNodeAbsentFromDHT then 1.0 else 0.5) - r.staleRecordCount as real * 0.1)
  }

  function HealthOf(scores: seq<real>): Health {
    if forall i :: 0 <= i < |scores| ==> scores[i] > 0.8 then GREEN
    else if exists i :: 0 <= i < |scores| && scores[i] < 0.5 then RED
    else YELLOW
  }

  function PeerCounts(nodes: seq<Node>): map<string, nat> {
    if nodes == [] then map[]
    else
      var n := nodes[|nodes| - 1];
      PeerCounts(nodes[..|nodes| - 1])[n.peerId := |PeersOf(n)|]
  }

  method ComputeMetrics(t: Snapshot, results: Results, r: TombstoneResult, totalNodes: nat) returns (v: Verdict)
    requires results.Valid()
    ensures v.connectivityScore == Connectivity(t) && v.isolatedCount == |t.isolatedPeerIds|
    ensures v.discoveryScore == DiscoveryScore(results, totalNodes)
    ensures v.tombstoneScore == TombstoneScore(r) && v.staleRecordCount == r.staleRecordCount
    ensures v.health == HealthOf([v.connectivityScore, v.discoveryScore, v.tombstoneScore])
    ensures v.peerCounts == PeerCounts(t.nodes)
  {
    var connectivityScore := Connectivity(t);

    var actualDiscoveries := 0;
    var lists := results.Values();
    for i := 0 to |lists|
      invariant actualDiscoveries == SumLengths(lists[..i])
    {
      assert lists[..i + 1][..i] == lists[..i];
      actualDiscoveries := actualDiscoveries + |lists[i]|;
    }
    assert lists[..|lists|] == lists;
    var totalPossible := if totalNodes > 0 then totalNodes * (totalNodes - 1) else 0;
    var discoveryScore := if totalPossible > 0 then actualDiscoveries as real / totalPossible as real else 0.0;

    var tombstoneScore: real;
    if r.deadNodeAbsentFromDHT {
      tombstoneScore := 1.0;
    } else if r.staleRecordCount > 0 {
      tombstoneScore := 0.5;
    } else {
      tombstoneScore := 0.5;
    }
    tombstoneScore := Max(0.0, tombstoneScore - r.staleRecordCount as real * 0.1);

    var scores := [connectivityScore, discoveryScore, tombstoneScore];
    var health := HealthOf(scores);

    var peerCounts: map<string, nat> := map[];
    for i := 0 to |t.nodes|
      invariant peerCounts == PeerCounts(t.nodes[..i])
    {
      assert t.nodes[..i + 1][..i] == t.nodes[..i];
      peerCounts := peerCounts[t.nodes[i].peerId := |PeersOf(t.nodes[i])|];
    }
    assert t.nodes[..|t.nodes|] == t.nodes;
    v := Verdict(connectivityScore, discoveryScore, tombstoneScore, r.staleRecordCount, |t.isolatedPeerIds|,
                 health, peerCounts);
  }

  // ----- what the colours mean -----

  /** Stale records are counted by survivor, and only when something was found. */
  lemma {:induction false} StaleCountIs(q: Query, survivors: seq<Node>, peerId: string)
    ensures StaleCount(q, survivors, peerId) <= |survivors|
    ensures StaleCount(q, survivors, peerId) > 0 <==> exists s :: s in survivors && Stale(q, s, peerId)
  {
    if survivors != [] {
      var init, last := survivors[..|survivors| - 1], survivors[|survivors| - 1];
      assert survivors == init + [last];
      StaleCountIs(q, init, peerId);
      if s :| s in survivors && Stale(q, s, peerId) {
        assert s in init || s == last;
      }
    }
  }

  /** Full marks exactly for an absent record; one stale record already costs more than half. */
  lemma {:induction false} TombstoneScoreMeans(q: Query, survivors: seq<Node>, peerId: string)
    ensures var r := TombstoneOf(q, survivors, peerId); var score := TombstoneScore(r);
      && 0.0 <= score <= 1.0
      && (score == 1.0 <==> r.deadNodeAbsentFromDHT)
      && (score > 0.5 <==> r.deadNodeAbsentFromDHT)
      && (score < 0.5 <==> exists s :: s in survivors && Stale(q, s, peerId))
  {
    StaleCountIs(q, survivors, peerId);
    if StaleCount(q, survivors, peerId) > 0 {
      var s :| s in survivors && Stale(q, s, peerId);
      assert Remains(q, s, peerId) != None;
    }
  }

  lemma {:induction false} PairsShare(n: nat)
    requires 2 <= n <= 40
    ensures 20 * Pairs(n - 1) <= 19 * Pairs(n)
  {
    PairsPositive(n);
    PairsPositive(n - 1);
    assert (n - 1) * (20 * (n - 2)) <= (n - 1) * (19 * n) by {
      ProductMonotone(20 * (n - 2), 19 * n, n - 1);
    }
  }

  lemma {:induction false} ShareBound(keys: nat, m: nat)
    requires m > 0 && 20 * keys <= 19 * m
    ensures keys as real / m as real <= 0.95
  {
    assert 20.0 * (keys as real) <= 19.0 * (m as real);
    QuotientAbove(keys as real, 0.95, m as real);
  }

  /** With k isolated among n <= 40 nodes the observed share of the pairs is at most 0.95. */
  lemma {:induction false} PenaltyBound(n: nat, k: nat, keys: nat)
    requires 0 < k <= n <= 40 && keys <= Pairs(n - k)
    ensures Score(n, keys) <= 0.95
  {
    PairsMonotone(n - k, n - 1);
    if n == 1 {
      assert Pairs(0) == 0;
    } else {
      PairsShare(n);
    }
    ShareBound(keys, MaxEdges(n));
  }

  /** Up to 40 nodes, a connectivity above the GREEN threshold leaves no announced node isolated. */
  lemma {:induction false} NoneIsolated(nodes: seq<Node>)
    requires PeersInCluster(nodes) && |nodes| <= 40
    ensures Connectivity(SnapshotOf(nodes)) > 0.8 ==> SnapshotOf(nodes).isolatedPeerIds == []
  {
    IsolationLimitsKeys(nodes);
    var k := |SnapshotOf(nodes).isolatedPeerIds|;
    if k > 0 { PenaltyBound(|nodes|, k, |Keys(EdgesOf(nodes))|); }
  }

  // ----- the bound of 40 is the exact one -----

  function Name(i: nat): string { seq(i, _ => 'a') }

  function Names(n: nat): (r: seq<string>)
    ensures |r| == n && forall i :: 0 <= i < n ==> r[i] == Name(i)
  {
    seq(n, i requires 0 <= i < n => Name(i))
  }

  /** A cluster in which each node reports the nodes before it, but the last, announced, reports none. */
  function LoneCluster(n: nat): (r: seq<Node>)
    ensures |r| == n
  {
    seq(n, i requires 0 <= i < n => Node(Name(i), true, Some(Libp2p(if i < n - 1 then Names(i) else [], true))))
  }

  lemma {:induction false} NamesProper(n: nat)
    ensures Proper(Names(n))
  {
    forall i, j | 0 <= i < j < n ensures Names(n)[i] != Names(n)[j] {
      assert |Name(i)| == i && |Name(j)| == j;
    }
  }

  lemma {:induction false} LoneEdges(n: nat, e: Edge)
    ensures e in EdgesOf(LoneCluster(n)) <==> exists i, j :: 0 <= j < i < n - 1 && e == Edge(Name(i), Name(j))
  {
    var nodes := LoneCluster(n);
    EdgesAre(nodes, e);
    if x :| x in nodes && x.peerId == e.from && e.to in PeersOf(x) {
      var i :| 0 <= i < n && nodes[i] == x;
      var j :| 0 <= j < |PeersOf(x)| && PeersOf(x)[j] == e.to;
      assert e == Edge(Name(i), Name(j));
    }
    if i, j :| 0 <= j < i < n - 1 && e == Edge(Name(i), Name(j)) {
      assert nodes[i] in nodes && PeersOf(nodes[i])[j] == Name(j);
    }
  }

  lemma {:induction false} LoneInCluster(n: nat)
    ensures PeersInCluster(LoneCluster(n))
  {
    var nodes := LoneCluster(n);
    forall x, p | x in nodes && p in PeersOf(x) ensures p in IdsOf(nodes) && p != x.peerId {
      var i :| 0 <= i < n && nodes[i] == x;
      var j :| 0 <= j < |PeersOf(x)| && PeersOf(x)[j] == p;
      assert IdsOf(nodes)[j] == Name(j) && |Name(i)| == i && |Name(j)| == j;
    }
  }

  /** All pairs of the other nodes are observed. */
  lemma {:induction false} LoneKeys(n: nat)
    requires n > 0
    ensures |Keys(EdgesOf(LoneCluster(n)))| == Pairs(n - 1)
  {
    var edges, ids := EdgesOf(LoneCluster(n)), Names(n - 1);
    NamesProper(n - 1);
    ProperNoClash(ids);
    forall e | e in edges ensures e.from in ids && e.to in ids && e.from != e.to {
      LoneEdges(n, e);
      var i, j :| 0 <= j < i < n - 1 && e == Edge(Name(i), Name(j));
      assert ids[i] == Name(i) && ids[j] == Name(j) && |Name(i)| == i && |Name(j)| == j;
    }
    forall i, j | 0 <= i < j < |ids| ensures Observed(edges, ids[i], ids[j]) {
      LoneEdges(n, Edge(Name(j), Name(i)));
    }
    KeysFullIff(edges, ids);
  }

  lemma {:induction false} IsolatedMember(nodes: seq<Node>, ends: set<string>, x: Node)
    requires x in nodes && x.announced && x.peerId !in ends
    ensures Isolated(nodes, ends) != []
  {
    var init, last := nodes[..|nodes| - 1], nodes[|nodes| - 1];
    assert nodes == init + [last];
    if x != last { IsolatedMember(init, ends, x); }
  }

  lemma {:induction false} NameLengths(i: nat, j: nat)
    requires i != j
    ensures Name(i) != Name(j)
  {
    assert |Name(i)| == i && |Name(j)| == j;
  }

  lemma {:induction false} LastHasNoEdge(n: nat)
    requires n > 0
    ensures Name(n - 1) !in Ends(EdgesOf(LoneCluster(n)))
  {
    forall e | e in EdgesOf(LoneCluster(n)) ensures e.from != Name(n - 1) && e.to != Name(n - 1) {
      LoneEdges(n, e);
      var i, j :| 0 <= j < i < n - 1 && e == Edge(Name(i), Name(j));
      NameLengths(i, n - 1);
      NameLengths(j, n - 1);
    }
  }

  lemma {:induction false} LoneIsIsolated(n: nat)
    requires n > 2
    ensures |SnapshotOf(LoneCluster(n)).isolatedPeerIds| == 1
  {
    var nodes := LoneCluster(n);
    LastHasNoEdge(n);
    assert nodes[n - 1] in nodes;
    IsolatedMember(nodes, Ends(EdgesOf(nodes)), nodes[n - 1]);
    LoneInCluster(n);
    LoneKeys(n);
    IsolationLimitsKeys(nodes);
    var k := |SnapshotOf(nodes).isolatedPeerIds|;
    if k > 1 {
      PairsMonotone(n - k, n - 2);
      FewerPairs(n);
    }
  }

  lemma {:induction false} FewerPairs(n: nat)
    requires n > 2
    ensures Pairs(n - 2) < Pairs(n - 1)
  {
    PairsPositive(n - 1);
  }

  lemma {:induction false} PairsShareLarge(n: nat)
    requires n > 40
    ensures 20 * Pairs(n - 1) > 19 * Pairs(n)
  {
    PairsPositive(n);
    PairsPositive(n - 1);
    ProductMonotone(19 * n + 1, 20 * (n - 2), n - 1);
  }

  lemma {:induction false} ShareAbove(keys: nat, m: nat)
    requires m > 0 && 20 * keys > 19 * m
    ensures keys as real / m as real > 0.95
  {
    assert 20.0 * (keys as real) > 19.0 * (m as real);
    QuotientAbove(keys as real, 0.95, m as real);
  }

  lemma {:induction false} QuotientAbove(a: real, c: real, m: real)
    requires m > 0.0
    ensures a / m > c <==> a > c * m
  {
    var x := a / m;
    assert (x - c) * m == a - c * m;
  }

  /** With more than 40 nodes an announced node can be isolated above the GREEN threshold. */
  lemma {:induction false} IsolatedAbove40(n: nat)
    requires n > 40
    ensures PeersInCluster(LoneCluster(n)) && Connectivity(SnapshotOf(LoneCluster(n))) > 0.8
    ensures SnapshotOf(LoneCluster(n)).isolatedPeerIds != []
  {
    LoneInCluster(n);
    LoneKeys(n);
    LoneIsIsolated(n);
    ScoreIsFraction(LoneCluster(n));
    PairsShareLarge(n);
    ShareAbove(Pairs(n - 1), MaxEdges(n));
  }

  /** The clusters in which a connectivity above the threshold leaves no announced node isolated are, by
      their size, exactly those of at most 40 nodes. */
  lemma {:induction false} NoneIsolatedIff(n: nat)
    ensures (forall nodes :: |nodes| == n && PeersInCluster(nodes) && Connectivity(SnapshotOf(nodes)) > 0.8 ==>
               SnapshotOf(nodes).isolatedPeerIds == [])
      <==> n <= 40
  {
    if n <= 40 {
      forall nodes | |nodes| == n && PeersInCluster(nodes) && Connectivity(SnapshotOf(nodes)) > 0.8
        ensures SnapshotOf(nodes).isolatedPeerIds == []
      {
        NoneIsolated(nodes);
      }
    } else {
      IsolatedAbove40(n);
      assert |LoneCluster(n)| == n;
    }
  }

  // ----- the overall verdict -----

  /** Cross-discovery looks things up before a node is killed, the tombstone check afterwards. */
  function Overall(found: Query, left: Query, nodes: seq<Node>, survivors: seq<Node>, peerId: string): Health
    requires CrossDiscovery(found, nodes, nodes).Valid()
  {
    HealthOf([
      Connectivity(SnapshotOf(nodes)),
      DiscoveryScore(CrossDiscovery(found, nodes, nodes), |nodes|),
      TombstoneScore(TombstoneOf(left, survivors, peerId))])
  }

  lemma {:induction false} HealthOfThree(a: real, b: real, c: real)
    ensures HealthOf([a, b, c]) == GREEN <==> a > 0.8 && b > 0.8 && c > 0.8
    ensures HealthOf([a, b, c]) == RED <==> a < 0.5 || b < 0.5 || c < 0.5
  {
    var scores := [a, b, c];
    assert scores[0] == a && scores[1] == b && scores[2] == c;
  }

  /** From the observations to the verdict. */
  lemma {:induction false} HealthMeans(found: Query, left: Query, nodes: seq<Node>, survivors: seq<Node>,
                                       peerId: string)
    requires PeersInCluster(nodes)
    ensures CrossDiscovery(found, nodes, nodes).Valid()
    ensures var health := Overall(found, left, nodes, survivors, peerId);
      && (health == GREEN ==> forall s :: s in survivors ==> Remains(left, s, peerId) == None)
      && (health == GREEN && |nodes| <= 40 ==> SnapshotOf(nodes).isolatedPeerIds == [])
      && ((exists s :: s in survivors && Stale(left, s, peerId)) ==> health == RED)
  {
    DiscoveryIsFraction(found, nodes, CrossDiscovery(found, nodes, nodes));
    TombstoneScoreMeans(left, survivors, peerId);
    if |nodes| <= 40 { NoneIsolated(nodes); }
    HealthOfThree(
      Connectivity(SnapshotOf(nodes)),
      DiscoveryScore(CrossDiscovery(found, nodes, nodes), |nodes|),
      TombstoneScore(TombstoneOf(left, survivors, peerId)));
  }
}
