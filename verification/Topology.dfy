/** The harness's observations of a cluster: connections, cross-discovery and tombstones. */
module Topology {
  import opened Text
  import opened Events

  /** What the harness asks of a running libp2p node. */
  datatype Libp2p = Libp2p(peers: seq<string>, contentRouting: bool)

  datatype Node = Node(peerId: string, announced: bool, libp2p: Option<Libp2p>)

  datatype Edge = Edge(from: string, to: string)

  datatype Snapshot = Snapshot(edges: seq<Edge>, nodes: seq<Node>, isolatedPeerIds: seq<string>,
                               connectivityScore: real)

  /** getPeers?.() ?? [] */
  function PeersOf(n: Node): seq<string> {
    if n.libp2p == None then [] else n.libp2p.value.peers
  }

  function IdsOf(nodes: seq<Node>): (r: seq<string>)
    ensures |r| == |nodes| && forall i :: 0 <= i < |r| ==> r[i] == nodes[i].peerId
  {
    seq(|nodes|, i requires 0 <= i < |nodes| => nodes[i].peerId)
  }

  // ----- verifyTopology -----

  function EdgesFrom(from: string, peers: seq<string>): seq<Edge> {
    seq(|peers|, i requires 0 <= i < |peers| => Edge(from, peers[i]))
  }

  function EdgesOf(nodes: seq<Node>): seq<Edge> {
    if nodes == [] then []
    else
      var n := nodes[|nodes| - 1];
      EdgesOf(nodes[..|nodes| - 1]) + EdgesFrom(n.peerId, PeersOf(n))
  }

  /** The unordered pair, smaller id first. */
  function Key(a: string, b: string): string {
    if Less(a, b) then a + "|" + b else b + "|" + a
  }

  function Keys(edges: seq<Edge>): set<string> {
    set e | e in edges :: Key(e.from, e.to)
  }

  function Ends(edges: seq<Edge>): set<string> {
    (set e | e in edges :: e.from) + (set e | e in edges :: e.to)
  }

  /** Announced nodes that appear in no edge. */
  function Isolated(nodes: seq<Node>, ends: set<string>): seq<string> {
    if nodes == [] then []
    else
      var n := nodes[|nodes| - 1];
      Isolated(nodes[..|nodes| - 1], ends) + if n.announced && n.peerId !in ends then [n.peerId] else []
  }

  /** n * (n - 1) / 2 */
  function Pairs(n: int): int { n * (n - 1) / 2 }

  function MaxEdges(n: nat): (m: nat)
    ensures m > 0
  {
    PairsPositive(n);
    if n > 1 then Pairs(n) else 1
  }

  lemma {:induction false} PairsPositive(n: nat)
    ensures n > 1 ==> Pairs(n) > 0
    ensures n > 0 ==> Pairs(n) == Pairs(n - 1) + n - 1
    ensures 2 * Pairs(n) == n * (n - 1) && Pairs(n) >= 0
    decreases n
  {
    if n > 0 {
      PairsPositive(n - 1);
      assert n * (n - 1) == (n - 1) * (n - 2) + 2 * (n - 1);
    }
  }

  function Score(n: nat, keys: nat): real { keys as real / MaxEdges(n) as real }

  function SnapshotOf(nodes: seq<Node>): Snapshot {
    var edges := EdgesOf(nodes);
    Snapshot(edges, nodes, Isolated(nodes, Ends(edges)), Score(|nodes|, |Keys(edges)|))
  }

  method ObserveEdges(nodes: seq<Node>) returns (edges: seq<Edge>)
    ensures edges == EdgesOf(nodes)
  {
    edges := [];
    for i := 0 to |nodes|
      invariant edges == EdgesOf(nodes[..i])
    {
      assert nodes[..i + 1][..i] == nodes[..i];
      var node := nodes[i];
      if node.libp2p == None { continue; }
      var peers := PeersOf(node);
      for j := 0 to |peers|
        invariant edges == EdgesOf(nodes[..i]) + EdgesFrom(node.peerId, peers)[..j]
      {
        edges := edges + [Edge(node.peerId, peers[j])];
      }
    }
    assert nodes[..|nodes|] == nodes;
  }

  method CollectEnds(edges: seq<Edge>) returns (nodesWithEdges: set<string>)
    ensures nodesWithEdges == Ends(edges)
  {
    nodesWithEdges := {};
    for i := 0 to |edges|
      invariant nodesWithEdges == Ends(edges[..i])
    {
      nodesWithEdges := nodesWithEdges + {edges[i].from, edges[i].to};
      assert edges[..i + 1] == edges[..i] + [edges[i]];
    }
    assert edges[..|edges|] == edges;
  }

  method CollectKeys(edges: seq<Edge>) returns (uniqueEdgeKeys: set<string>)
    ensures uniqueEdgeKeys == Keys(edges)
  {
    uniqueEdgeKeys := {};
    for i := 0 to |edges|
      invariant uniqueEdgeKeys == Keys(edges[..i])
    {
      uniqueEdgeKeys := uniqueEdgeKeys + {Key(edges[i].from, edges[i].to)};
      assert edges[..i + 1] == edges[..i] + [edges[i]];
    }
    assert edges[..|edges|] == edges;
  }

  method VerifyTopology(nodes: seq<Node>) returns (s: Snapshot)
    ensures s == SnapshotOf(nodes)
  {
    var edges := ObserveEdges(nodes);
    var nodesWithEdges := CollectEnds(edges);
    var uniqueEdgeKeys := CollectKeys(edges);
    s := Snapshot(edges, nodes, Isolated(nodes, nodesWithEdges), Score(|nodes|, |uniqueEdgeKeys|));
  }

  // ----- the pairs of a cluster -----

  /** Keys that join c with one of the ids. */
  ghost function StarKeys(ids: seq<string>, c: string): set<string> {
    set i | 0 <= i < |ids| :: Key(ids[i], c)
  }

  /** Keys of all pairs of positions. */
  ghost function AllKeys(ids: seq<string>): set<string> {
    set i, j | 0 <= i < j < |ids| :: Key(ids[i], ids[j])
  }

  lemma {:induction false} StarKeysStep(init: seq<string>, last: string, c: string)
    ensures StarKeys(init + [last], c) == StarKeys(init, c) + {Key(last, c)}
  {
    var ids := init + [last];
    assert forall i :: 0 <= i < |init| ==> ids[i] == init[i];
    forall k | k in StarKeys(init, c) ensures k in StarKeys(ids, c) {
      var i :| 0 <= i < |init| && k == Key(init[i], c);
      assert ids[i] == init[i];
    }
    assert ids[|init|] == last;
  }

  lemma {:induction false} AllKeysStep(init: seq<string>, last: string)
    ensures AllKeys(init + [last]) == AllKeys(init) + StarKeys(init, last)
  {
    var ids := init + [last];
    assert forall i :: 0 <= i < |init| ==> ids[i] == init[i];
    forall k | k in AllKeys(ids) ensures k in AllKeys(init) + StarKeys(init, last) {
      var i, j :| 0 <= i < j < |ids| && k == Key(ids[i], ids[j]);
      assert ids[i] == init[i];
    }
    forall k | k in AllKeys(init) ensures k in AllKeys(ids) {
      var i, j :| 0 <= i < j < |init| && k == Key(init[i], init[j]);
      assert ids[i] == init[i] && ids[j] == init[j];
    }
    forall k | k in StarKeys(init, last) ensures k in AllKeys(ids) {
      var i :| 0 <= i < |init| && k == Key(init[i], last);
      assert ids[i] == init[i] && ids[|init|] == last;
    }
  }

  lemma {:induction false} KeySymmetric(a: string, b: string)
    ensures Key(a, b) == Key(b, a)
  {
    LessTotal(a, b);
    if Less(a, b) { LessAsymmetric(a, b); }
    if Less(b, a) { LessAsymmetric(b, a); }
  }

  lemma {:induction false} StarKeysBound(ids: seq<string>, c: string)
    ensures |StarKeys(ids, c)| <= |ids|
  {
    if ids != [] {
      var init, last := ids[..|ids| - 1], ids[|ids| - 1];
      assert ids == init + [last];
      StarKeysStep(init, last, c);
      StarKeysBound(init, c);
    }
  }

  lemma {:induction false} AllKeysBound(ids: seq<string>)
    ensures |AllKeys(ids)| <= Pairs(|ids|)
  {
    PairsPositive(|ids|);
    if ids != [] {
      var init, last := ids[..|ids| - 1], ids[|ids| - 1];
      assert ids == init + [last];
      AllKeysStep(init, last);
      AllKeysBound(init);
      StarKeysBound(init, last);
    }
  }

  /** Each edge joins two different members. */
  ghost predicate Among(edges: seq<Edge>, ids: seq<string>) {
    forall e :: e in edges ==> e.from in ids && e.to in ids && e.from != e.to
  }

  lemma {:induction false} KeysAmong(edges: seq<Edge>, ids: seq<string>)
    requires Among(edges, ids)
    ensures Keys(edges) <= AllKeys(ids)
  {
    forall e | e in edges ensures Key(e.from, e.to) in AllKeys(ids) {
      var i :| 0 <= i < |ids| && ids[i] == e.from;
      var j :| 0 <= j < |ids| && ids[j] == e.to;
      KeySymmetric(e.from, e.to);
      assert Key(ids[i], ids[j]) == Key(ids[j], ids[i]);
    }
  }

  lemma {:induction false} SubsetSize<T>(a: set<T>, b: set<T>)
    requires a <= b
    ensures |a| <= |b| && (|a| == |b| ==> a == b)
    decreases |a|
  {
    if a != {} {
      var x :| x in a;
      SubsetSize(a - {x}, b - {x});
      if |a| == |b| { assert a == (a - {x}) + {x} && b == (b - {x}) + {x}; }
    } else {
      assert |b| == 0 ==> b == {};
    }
  }

  lemma {:induction false} KeysBound(edges: seq<Edge>, ids: seq<string>)
    requires Among(edges, ids)
    ensures |Keys(edges)| <= Pairs(|ids|)
  {
    KeysAmong(edges, ids);
    SubsetSize(Keys(edges), AllKeys(ids));
    AllKeysBound(ids);
  }

  /** Every reported peer is another node of the cluster. */
  ghost predicate PeersInCluster(nodes: seq<Node>) {
    forall n, p :: n in nodes && p in PeersOf(n) ==> p in IdsOf(nodes) && p != n.peerId
  }

  lemma {:induction false} EdgesAre(nodes: seq<Node>, e: Edge)
    ensures e in EdgesOf(nodes) <==> exists n :: n in nodes && n.peerId == e.from && e.to in PeersOf(n)
  {
    if nodes != [] {
      var init, n := nodes[..|nodes| - 1], nodes[|nodes| - 1];
      assert nodes == init + [n];
      EdgesAre(init, e);
      if e.from == n.peerId && e.to in PeersOf(n) {
        var i :| 0 <= i < |PeersOf(n)| && PeersOf(n)[i] == e.to;
        assert EdgesFrom(n.peerId, PeersOf(n))[i] == e;
      }
    }
  }

  lemma {:induction false} EdgesAmong(nodes: seq<Node>)
    requires PeersInCluster(nodes)
    ensures Among(EdgesOf(nodes), IdsOf(nodes))
  {
    forall e | e in EdgesOf(nodes) ensures e.from in IdsOf(nodes) && e.to in IdsOf(nodes) && e.from != e.to {
      EdgesAre(nodes, e);
      var n :| n in nodes && n.peerId == e.from && e.to in PeersOf(n);
      var i :| 0 <= i < |nodes| && nodes[i] == n;
      assert IdsOf(nodes)[i] == e.from;
    }
  }

  lemma {:induction false} FractionAtMostOne(x: real, m: real)
    requires 0.0 <= x && m > 0.0
    ensures x / m >= 0.0 && (x <= m <==> x / m <= 1.0) && (x == m <==> x / m == 1.0)
  {
    assert x == x / m * m;
  }

  /** The number of distinct edges is at most n(n-1)/2, so the score is a fraction. */
  lemma {:induction false} ScoreIsFraction(nodes: seq<Node>)
    requires PeersInCluster(nodes)
    ensures |Keys(EdgesOf(nodes))| <= Pairs(|nodes|)
    ensures 0.0 <= SnapshotOf(nodes).connectivityScore <= 1.0
  {
    EdgesAmong(nodes);
    KeysBound(EdgesOf(nodes), IdsOf(nodes));
    PairsPositive(|nodes|);
    FractionAtMostOne(|Keys(EdgesOf(nodes))| as real, MaxEdges(|nodes|) as real);
  }

  // ----- the separator in ids -----

  predicate BarFree(id: string) { '|' !in id }

  lemma {:induction false} JoinInjective(a: string, b: string, c: string, d: string)
    requires BarFree(a) && BarFree(c) && a + "|" + b == c + "|" + d
    ensures a == c && b == d
  {
    var s := a + "|" + b;
    assert s == c + "|" + d;
    assert s[|a|] == '|' && s[|c|] == '|';
    assert |a| == |c|;
    assert a == s[..|a|] && c == s[..|c|];
    assert b == s[|a| + 1..] && d == s[|c| + 1..];
  }

  /** Without the separator in an id, a key names one unordered pair. */
  lemma {:induction false} KeyInjective(a: string, b: string, c: string, d: string)
    requires BarFree(a) && BarFree(b) && BarFree(c) && BarFree(d) && Key(a, b) == Key(c, d)
    ensures (a == c && b == d) || (a == d && b == c)
  {
    var (x, y) := if Less(a, b) then (a, b) else (b, a);
    var (z, w) := if Less(c, d) then (c, d) else (d, c);
    JoinInjective(x, y, z, w);
  }

  /** With it, two disjoint pairs can share a key. */
  lemma {:induction false} KeyClash()
    ensures Key("a", "b|c") == Key("a|b", "c")
  {
    assert Key("a", "b|c") == "a|b|c";
    assert Key("a|b", "c") == "a|b|c" by {
      assert "a|b"[0] == 'a' && "c"[0] == 'c';
    }
  }

  ghost predicate Proper(ids: seq<string>) {
    Distinct(ids) && forall i :: 0 <= i < |ids| ==> BarFree(ids[i])
  }

  // ----- when all keys are different -----

  /** The keys that join c with the ids are all different. */
  ghost predicate StarApart(ids: seq<string>, c: string) {
    forall h, i :: 0 <= h < i < |ids| ==> Key(ids[h], c) != Key(ids[i], c)
  }

  /** For each id, the pairs it ends have keys that differ from each other and from those of all pairs
      before it. */
  ghost predicate NoClash(ids: seq<string>) {
    ids == []
    || (var init, last := ids[..|ids| - 1], ids[|ids| - 1];
        NoClash(init) && StarApart(init, last) && AllKeys(init) !! StarKeys(init, last))
  }

  lemma {:induction false} StarFullIff(ids: seq<string>, c: string)
    ensures |StarKeys(ids, c)| == |ids| <==> StarApart(ids, c)
  {
    if ids != [] {
      var init, last := ids[..|ids| - 1], ids[|ids| - 1];
      assert ids == init + [last];
      StarKeysStep(init, last, c);
      StarKeysBound(init, c);
      StarFullIff(init, c);
      StarApartStep(init, last, c);
    }
  }

  lemma {:induction false} StarApartStep(init: seq<string>, last: string, c: string)
    ensures StarApart(init + [last], c) <==> StarApart(init, c) && Key(last, c) !in StarKeys(init, c)
  {
    var ids := init + [last];
    assert forall i :: 0 <= i < |init| ==> ids[i] == init[i];
    assert ids[|init|] == last;
    if StarApart(ids, c) {
      forall h, i | 0 <= h < i < |init| ensures Key(init[h], c) != Key(init[i], c) {
        assert Key(ids[h], c) != Key(ids[i], c);
      }
      forall h | 0 <= h < |init| ensures Key(init[h], c) != Key(last, c) {
        assert Key(ids[h], c) != Key(ids[|init|], c);
      }
    }
  }

  /** The pairs fill their number exactly when no keys clash. */
  lemma {:induction false} AllKeysFullIff(ids: seq<string>)
    ensures |AllKeys(ids)| == Pairs(|ids|) <==> NoClash(ids)
  {
    PairsPositive(|ids|);
    if ids != [] {
      var init, last := ids[..|ids| - 1], ids[|ids| - 1];
      assert ids == init + [last];
      AllKeysStep(init, last);
      AllKeysBound(init);
      StarKeysBound(init, last);
      AllKeysFullIff(init);
      StarFullIff(init, last);
      UnionSize(AllKeys(init), StarKeys(init, last));
    }
  }

  lemma {:induction false} UnionSize<T>(a: set<T>, b: set<T>)
    ensures |a + b| <= |a| + |b|
    ensures |a + b| == |a| + |b| <==> a !! b
  {
    assert |a + b| + |a * b| == |a| + |b|;
    if a * b == {} {
      forall x | x in a ensures x !in b { assert x !in a * b; }
    }
  }

  /** A pair ended by the last id shares no key with a pair before it. */
  lemma {:induction false} LastApart(ids: seq<string>, i: nat, j: nat, h: nat)
    requires NoClash(ids) && i < j < |ids| - 1 && h < |ids| - 1
    ensures Key(ids[i], ids[j]) != Key(ids[h], ids[|ids| - 1])
  {
    var init, last := ids[..|ids| - 1], ids[|ids| - 1];
    assert Key(init[i], init[j]) in AllKeys(init);
    assert Key(init[h], last) in StarKeys(init, last);
  }

  lemma {:induction false} LastPairs(ids: seq<string>, i: nat, k: nat)
    requires NoClash(ids) && i < k < |ids| - 1
    ensures Key(ids[i], ids[|ids| - 1]) != Key(ids[k], ids[|ids| - 1])
  {
    var init, last := ids[..|ids| - 1], ids[|ids| - 1];
    assert Key(init[i], last) != Key(init[k], last);
  }

  lemma {:induction false} NoClashMeans(ids: seq<string>, i: nat, j: nat, k: nat, l: nat)
    requires NoClash(ids) && i < j < |ids| && k < l < |ids|
    requires Key(ids[i], ids[j]) == Key(ids[k], ids[l])
    ensures i == k && j == l
  {
    var n := |ids| - 1;
    var init := ids[..n];
    if j < n && l < n {
      assert init[i] == ids[i] && init[j] == ids[j] && init[k] == ids[k] && init[l] == ids[l];
      NoClashMeans(init, i, j, k, l);
    } else if j < n {
      LastApart(ids, i, j, k);
    } else if l < n {
      LastApart(ids, k, l, i);
    } else if i < k {
      LastPairs(ids, i, k);
    } else if k < i {
      LastPairs(ids, k, i);
    }
  }

  function PairKey(ids: seq<string>, i: nat, j: nat): string
    requires i < j < |ids|
  {
    Key(ids[i], ids[j])
  }

  /** Equal keys come from the same pair of positions. */
  ghost predicate PairsDiffer(ids: seq<string>) {
    forall i: nat, j: nat, k: nat, l: nat :: i < j < |ids| && k < l < |ids| ==>
      PairKey(ids, i, j) == PairKey(ids, k, l) ==> i == k && j == l
  }

  lemma {:induction false} PairKeyInit(init: seq<string>, last: string, i: nat, j: nat)
    requires i < j < |init|
    ensures PairKey(init + [last], i, j) == PairKey(init, i, j)
  {
    assert (init + [last])[i] == init[i] && (init + [last])[j] == init[j];
  }

  lemma {:induction false} PairKeyLast(init: seq<string>, last: string, i: nat)
    requires i < |init|
    ensures PairKey(init + [last], i, |init|) == Key(init[i], last)
  {
    assert (init + [last])[i] == init[i] && (init + [last])[|init|] == last;
  }

  lemma {:induction false} DifferInit(init: seq<string>, last: string)
    requires PairsDiffer(init + [last])
    ensures PairsDiffer(init)
  {
    forall i: nat, j: nat, k: nat, l: nat
      | i < j < |init| && k < l < |init| && PairKey(init, i, j) == PairKey(init, k, l)
      ensures i == k && j == l
    {
      PairKeyInit(init, last, i, j);
      PairKeyInit(init, last, k, l);
    }
  }

  lemma {:induction false} DifferLast(init: seq<string>, last: string)
    requires PairsDiffer(init + [last])
    ensures StarApart(init, last)
  {
    forall h, i | 0 <= h < i < |init| ensures Key(init[h], last) != Key(init[i], last) {
      PairKeyLast(init, last, h);
      PairKeyLast(init, last, i);
    }
  }

  lemma {:induction false} DifferAcross(init: seq<string>, last: string)
    requires PairsDiffer(init + [last])
    ensures AllKeys(init) !! StarKeys(init, last)
  {
    forall key | key in AllKeys(init) ensures key !in StarKeys(init, last) {
      var i, j :| 0 <= i < j < |init| && key == Key(init[i], init[j]);
      PairKeyInit(init, last, i, j);
      forall h | 0 <= h < |init| ensures key != Key(init[h], last) { PairKeyLast(init, last, h); }
    }
  }

  lemma {:induction false} DifferNoClash(ids: seq<string>)
    requires PairsDiffer(ids)
    ensures NoClash(ids)
  {
    if ids != [] {
      var init, last := ids[..|ids| - 1], ids[|ids| - 1];
      assert ids == init + [last];
      DifferInit(init, last);
      DifferLast(init, last);
      DifferAcross(init, last);
      DifferNoClash(init);
    }
  }

  /** NoClash says just this: no two pairs of positions share a key. */
  lemma {:induction false} NoClashIff(ids: seq<string>)
    ensures NoClash(ids) <==> PairsDiffer(ids)
  {
    if PairsDiffer(ids) { DifferNoClash(ids); }
    if NoClash(ids) {
      forall i: nat, j: nat, k: nat, l: nat | i < j < |ids| && k < l < |ids| && PairKey(ids, i, j) == PairKey(ids, k, l)
        ensures i == k && j == l
      {
        NoClashMeans(ids, i, j, k, l);
      }
    }
  }

  /** Distinct ids free of the separator do not clash. */
  lemma {:induction false} ProperNoClash(ids: seq<string>)
    requires Proper(ids)
    ensures NoClash(ids)
  {
    if ids != [] {
      var init, last := ids[..|ids| - 1], ids[|ids| - 1];
      ProperNoClash(init);
      NewKeys(init, last);
      forall h, i | 0 <= h < i < |init| ensures Key(init[h], last) != Key(init[i], last) {
        if Key(init[h], last) == Key(init[i], last) {
          KeyInjective(init[h], last, init[i], last);
          assert false;
        }
      }
    }
  }

  lemma {:induction false} NewKeys(init: seq<string>, last: string)
    requires Proper(init) && BarFree(last) && last !in init
    ensures AllKeys(init) !! StarKeys(init, last)
  {
    forall k | k in AllKeys(init) ensures k !in StarKeys(init, last) {
      var i, j :| 0 <= i < j < |init| && k == Key(init[i], init[j]);
      if k in StarKeys(init, last) {
        var h :| 0 <= h < |init| && k == Key(init[h], last);
        KeyInjective(init[i], init[j], init[h], last);
        assert false;
      }
    }
  }

  // ----- a full mesh -----

  predicate Observed(edges: seq<Edge>, a: string, b: string) { Edge(a, b) in edges || Edge(b, a) in edges }

  ghost predicate FullMesh(edges: seq<Edge>, ids: seq<string>) {
    forall i, j :: 0 <= i < j < |ids| ==> Observed(edges, ids[i], ids[j])
  }

  lemma {:induction false} KeyObserved(edges: seq<Edge>, ids: seq<string>, i: nat, j: nat)
    requires NoClash(ids) && Among(edges, ids) && i < j < |ids|
    requires Key(ids[i], ids[j]) in Keys(edges)
    ensures Observed(edges, ids[i], ids[j])
  {
    var e :| e in edges && Key(e.from, e.to) == Key(ids[i], ids[j]);
    var a :| 0 <= a < |ids| && ids[a] == e.from;
    var b :| 0 <= b < |ids| && ids[b] == e.to;
    KeySymmetric(e.from, e.to);
    if a < b { NoClashMeans(ids, a, b, i, j); } else { NoClashMeans(ids, b, a, i, j); }
    assert e == Edge(ids[i], ids[j]) || e == Edge(ids[j], ids[i]);
  }

  lemma {:induction false} ObservedKey(edges: seq<Edge>, a: string, b: string)
    requires Observed(edges, a, b)
    ensures Key(a, b) in Keys(edges)
  {
    KeySymmetric(a, b);
    var e := if Edge(a, b) in edges then Edge(a, b) else Edge(b, a);
    assert Key(e.from, e.to) in Keys(edges);
  }

  lemma {:induction false} MeshHasAllKeys(edges: seq<Edge>, ids: seq<string>)
    requires FullMesh(edges, ids)
    ensures AllKeys(ids) <= Keys(edges)
  {
    forall k | k in AllKeys(ids) ensures k in Keys(edges) {
      var i, j :| 0 <= i < j < |ids| && k == Key(ids[i], ids[j]);
      ObservedKey(edges, ids[i], ids[j]);
    }
  }

  lemma {:induction false} AllKeysMakeMesh(edges: seq<Edge>, ids: seq<string>)
    requires Among(edges, ids) && NoClash(ids) && AllKeys(ids) <= Keys(edges)
    ensures FullMesh(edges, ids)
  {
    forall i, j | 0 <= i < j < |ids| ensures Observed(edges, ids[i], ids[j]) {
      assert Key(ids[i], ids[j]) in AllKeys(ids);
      KeyObserved(edges, ids, i, j);
    }
  }

  lemma {:induction false} MeshIffAllKeys(edges: seq<Edge>, ids: seq<string>)
    requires Among(edges, ids)
    ensures FullMesh(edges, ids) && NoClash(ids) <==> AllKeys(ids) <= Keys(edges) && NoClash(ids)
  {
    if FullMesh(edges, ids) { MeshHasAllKeys(edges, ids); }
    if AllKeys(ids) <= Keys(edges) && NoClash(ids) { AllKeysMakeMesh(edges, ids); }
  }

  lemma {:induction false} Squeezed<T>(part: set<T>, all: set<T>, n: int)
    requires part <= all && |all| <= n
    ensures |part| == n <==> all <= part && |all| == n
  {
    SubsetSize(part, all);
    if all <= part { assert all == part; }
  }

  lemma {:induction false} KeysFullIff(edges: seq<Edge>, ids: seq<string>)
    requires Among(edges, ids)
    ensures |Keys(edges)| == Pairs(|ids|) <==> FullMesh(edges, ids) && NoClash(ids)
  {
    KeysAmong(edges, ids);
    AllKeysBound(ids);
    AllKeysFullIff(ids);
    MeshIffAllKeys(edges, ids);
    Squeezed(Keys(edges), AllKeys(ids), Pairs(|ids|));
  }

  /** Full marks exactly when every two nodes were seen connected, by either of them, and no two pairs
      share a key. */
  lemma {:induction false} ScoreOneIff(nodes: seq<Node>)
    requires PeersInCluster(nodes) && |nodes| > 1
    ensures SnapshotOf(nodes).connectivityScore == 1.0
      <==> FullMesh(EdgesOf(nodes), IdsOf(nodes)) && PairsDiffer(IdsOf(nodes))
  {
    NoClashIff(IdsOf(nodes));
    EdgesAmong(nodes);
    KeysFullIff(EdgesOf(nodes), IdsOf(nodes));
    FractionAtMostOne(|Keys(EdgesOf(nodes))| as real, MaxEdges(|nodes|) as real);
  }

  /** With distinct ids free of the separator, full marks mean a full mesh and nothing else. */
  lemma {:induction false} ScoreOneIffFullMesh(nodes: seq<Node>)
    requires PeersInCluster(nodes) && Proper(IdsOf(nodes)) && |nodes| > 1
    ensures SnapshotOf(nodes).connectivityScore == 1.0 <==> FullMesh(EdgesOf(nodes), IdsOf(nodes))
  {
    ScoreOneIff(nodes);
    ProperNoClash(IdsOf(nodes));
    NoClashIff(IdsOf(nodes));
  }

  // ----- isolated nodes -----

  /** The ids that appear in an edge. */
  function Connected(nodes: seq<Node>, ends: set<string>): seq<string> {
    if nodes == [] then []
    else
      var n := nodes[|nodes| - 1];
      Connected(nodes[..|nodes| - 1], ends) + if n.peerId in ends then [n.peerId] else []
  }

  lemma {:induction false} ConnectedAre(nodes: seq<Node>, ends: set<string>)
    ensures |Connected(nodes, ends)| + |Isolated(nodes, ends)| <= |nodes|
    ensures forall i :: 0 <= i < |nodes| && nodes[i].peerId in ends ==> nodes[i].peerId in Connected(nodes, ends)
  {
    if nodes != [] { ConnectedAre(nodes[..|nodes| - 1], ends); }
  }

  lemma {:induction false} IdConnected(nodes: seq<Node>, ends: set<string>, id: string)
    requires id in IdsOf(nodes) && id in ends
    ensures id in Connected(nodes, ends)
  {
    var i :| 0 <= i < |nodes| && IdsOf(nodes)[i] == id;
    ConnectedAre(nodes, ends);
    assert nodes[i].peerId in ends;
  }

  lemma {:induction false} PairsMonotone(m: nat, n: nat)
    requires m <= n
    ensures Pairs(m) <= Pairs(n)
    decreases n
  {
    if m < n {
      PairsPositive(n);
      PairsMonotone(m, n - 1);
    }
  }

  lemma {:induction false} ConnectedAmong(nodes: seq<Node>, edges: seq<Edge>, ends: set<string>)
    requires Among(edges, IdsOf(nodes)) && ends == Ends(edges)
    ensures Among(edges, Connected(nodes, ends))
  {
    forall e | e in edges ensures e.from in Connected(nodes, ends) && e.to in Connected(nodes, ends) {
      IdConnected(nodes, ends, e.from);
      IdConnected(nodes, ends, e.to);
    }
  }

  lemma {:induction false} ConnectedLimitsKeys(nodes: seq<Node>, edges: seq<Edge>, k: nat)
    requires Among(edges, IdsOf(nodes)) && k == |Isolated(nodes, Ends(edges))|
    ensures k <= |nodes| && |Keys(edges)| <= Pairs(|nodes| - k)
  {
    var connected := Connected(nodes, Ends(edges));
    ConnectedAmong(nodes, edges, Ends(edges));
    ConnectedAre(nodes, Ends(edges));
    KeysBound(edges, connected);
    PairsMonotone(|connected|, |nodes| - k);
  }

  /** k isolated nodes leave at most the pairs of the other n - k. */
  lemma {:induction false} IsolationLimitsKeys(nodes: seq<Node>)
    requires PeersInCluster(nodes)
    ensures var k := |SnapshotOf(nodes).isolatedPeerIds|;
      k <= |nodes| && |Keys(EdgesOf(nodes))| <= Pairs(|nodes| - k)
  {
    EdgesAmong(nodes);
    ConnectedLimitsKeys(nodes, EdgesOf(nodes), |SnapshotOf(nodes).isolatedPeerIds|);
  }
}
