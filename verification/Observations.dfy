/** What the harness observes, entry by entry: the lists name the right nodes, each once, in the order of the
    cluster. */
module Observations {
  import opened Text
  import opened Events
  import opened Topology
  import opened Metrics

  /** The positions, in ascending order, of exactly the nodes to keep. */
  ghost predicate PositionsOf(at: seq<nat>, nodes: seq<Node>, keep: Node -> bool) {
    && (forall j, k :: 0 <= j < k < |at| ==> at[j] < at[k])
    && (forall k :: 0 <= k < |at| ==> at[k] < |nodes|)
    && (forall i: nat :: i < |nodes| ==> (keep(nodes[i]) <==> i in at))
  }

  /** The ids of exactly the nodes to keep, in their order. */
  ghost predicate Lists(r: seq<string>, nodes: seq<Node>, keep: Node -> bool) {
    exists at: seq<nat> :: PositionsOf(at, nodes, keep) && IdsAt(r, nodes, at)
  }

  ghost predicate IdsAt(r: seq<string>, nodes: seq<Node>, at: seq<nat>) {
    |r| == |at| && forall k :: 0 <= k < |r| ==> at[k] < |nodes| && r[k] == nodes[at[k]].peerId
  }

  lemma {:induction false} PositionsStep(at: seq<nat>, nodes: seq<Node>, n: Node, keep: Node -> bool)
    requires PositionsOf(at, nodes, keep)
    ensures PositionsOf(if keep(n) then at + [|nodes|] else at, nodes + [n], keep)
  {
    var at', all := if keep(n) then at + [|nodes|] else at, nodes + [n];
    forall i: nat | i < |all| ensures keep(all[i]) <==> i in at' {
      if i < |nodes| { assert all[i] == nodes[i]; }
    }
  }

  lemma {:induction false} IdsStep(r: seq<string>, nodes: seq<Node>, n: Node, at: seq<nat>)
    requires IdsAt(r, nodes, at)
    ensures IdsAt(r, nodes + [n], at) && IdsAt(r + [n.peerId], nodes + [n], at + [|nodes|])
  {
    forall k | 0 <= k < |r| ensures (nodes + [n])[at[k]] == nodes[at[k]] { }
  }

  lemma {:induction false} ListsStep(r: seq<string>, nodes: seq<Node>, n: Node, keep: Node -> bool)
    requires Lists(r, nodes, keep)
    ensures Lists(if keep(n) then r + [n.peerId] else r, nodes + [n], keep)
  {
    var at: seq<nat> :| PositionsOf(at, nodes, keep) && IdsAt(r, nodes, at);
    PositionsStep(at, nodes, n, keep);
    IdsStep(r, nodes, n, at);
  }

  lemma {:induction false} ListsNone(keep: Node -> bool)
    ensures Lists([], [], keep)
  {
    assert PositionsOf([], [], keep) && IdsAt([], [], []);
  }

  // ----- isolated nodes -----

  /** A peer of the node, or a node of which it is a peer. */
  ghost predicate Linked(nodes: seq<Node>, id: string) {
    exists n, p :: n in nodes && p in PeersOf(n) && (id == n.peerId || id == p)
  }

  lemma {:induction false} EndsAre(nodes: seq<Node>, id: string)
    ensures id in Ends(EdgesOf(nodes)) <==> Linked(nodes, id)
  {
    if e :| e in EdgesOf(nodes) && (e.from == id || e.to == id) {
      EdgesAre(nodes, e);
    }
    if n, p :| n in nodes && p in PeersOf(n) && (id == n.peerId || id == p) {
      EdgesAre(nodes, Edge(n.peerId, p));
      assert Edge(n.peerId, p) in EdgesOf(nodes);
    }
  }

  ghost function Alone(nodes: seq<Node>): Node -> bool {
    (n: Node) => n.announced && !Linked(nodes, n.peerId)
  }

  lemma {:induction false} IsolatedAmong(part: seq<Node>, ends: set<string>, keep: Node -> bool)
    requires forall n :: keep(n) <==> n.announced && n.peerId !in ends
    ensures Lists(Isolated(part, ends), part, keep)
  {
    if part == [] {
      ListsNone(keep);
    } else {
      var init, last := part[..|part| - 1], part[|part| - 1];
      assert part == init + [last];
      IsolatedAmong(init, ends, keep);
      ListsStep(Isolated(init, ends), init, last, keep);
    }
  }

  /** The isolated ids are those of the announced nodes that report no peer and are no node's peer. */
  lemma {:induction false} IsolatedAre(nodes: seq<Node>)
    ensures Lists(SnapshotOf(nodes).isolatedPeerIds, nodes, Alone(nodes))
  {
    var ends := Ends(EdgesOf(nodes));
    forall n ensures Alone(nodes)(n) <==> n.announced && n.peerId !in ends { EndsAre(nodes, n.peerId); }
    IsolatedAmong(nodes, ends, Alone(nodes));
  }

  // ----- cross-discovery -----

  /** A running node with content routing. */
  predicate CanQuery(n: Node) { match n.libp2p case None => false case Some(l) => l.contentRouting }

  /** Another node whose key the lookup answers. */
  function Found(q: Query, querier: Node): Node -> bool {
    (t: Node) => t.peerId != querier.peerId
      && q.lookup(querier, "/bpb/v2/" + q.network + "/" + q.protocol + "/" + t.peerId).Some?
  }

  lemma {:induction false} DiscoveredAre(q: Query, querier: Node, targets: seq<Node>)
    ensures Lists(DiscoveredBy(q, querier, targets), targets, Found(q, querier))
  {
    if targets == [] {
      ListsNone(Found(q, querier));
    } else {
      var init, last := targets[..|targets| - 1], targets[|targets| - 1];
      assert targets == init + [last];
      DiscoveredAre(q, querier, init);
      ListsStep(DiscoveredBy(q, querier, init), init, last, Found(q, querier));
    }
  }

  /** Among distinct ids, each node's entry lists the other nodes it found, and nothing when it cannot
      query. */
  lemma {:induction false} CrossDiscoveryIs(q: Query, nodes: seq<Node>, i: nat)
    requires Distinct(IdsOf(nodes)) && i < |nodes|
    ensures var r := CrossDiscovery(q, nodes, nodes);
      && r.order == IdsOf(nodes)
      && r.Get(nodes[i].peerId).Some?
      && Lists(r.Get(nodes[i].peerId).value, nodes,
               if CanQuery(nodes[i]) then Found(q, nodes[i]) else (n: Node) => false)
  {
    var r := CrossDiscovery(q, nodes, nodes);
    CrossDiscoveryDistinct(q, nodes, nodes);
    assert r.order[i] == nodes[i].peerId && r.order[i] in r.order;
    if CanQuery(nodes[i]) {
      DiscoveredAre(q, nodes[i], nodes);
    } else {
      assert PositionsOf([], nodes, (n: Node) => false) && IdsAt([], nodes, []);
    }
  }

  /** Alone, or without nodes, a cluster has nothing to discover and scores nothing. */
  lemma {:induction false} NothingToDiscover(results: Results, n: nat)
    requires results.Valid() && n <= 1
    ensures DiscoveryScore(results, n) == 0.0
  {
  }

  // ----- tombstones -----

  ghost predicate Occurs(part: string, s: string) {
    exists i :: 0 <= i <= |s| && part <= s[i..]
  }

  lemma {:induction false} IncludesIff(s: string, part: string)
    ensures Includes(s, part) <==> Occurs(part, s)
  {
    assert s[0..] == s;
    if s != "" {
      IncludesIff(s[1..], part);
      if i :| 0 <= i <= |s[1..]| && part <= s[1..][i..] { assert s[i + 1..] == s[1..][i..]; }
      if i :| 0 < i <= |s| && part <= s[i..] { assert s[1..][i - 1..] == s[i..]; }
    }
  }

  /** A survivor that can query and finds a value that is marked neither tombstone nor dead. */
  ghost function Outdated(q: Query, peerId: string): Node -> bool {
    (n: Node) => CanQuery(n)
      && (match q.lookup(n, "/bpb/v2/" + q.network + "/" + q.protocol + "/" + peerId)
          case None => false
          case Some(v) => !Occurs("\"tombstone\"", v) && !Occurs("\"dead\"", v))
  }

  lemma {:induction false} OutdatedIff(q: Query, n: Node, peerId: string)
    ensures Stale(q, n, peerId) <==> Outdated(q, peerId)(n)
  {
    assert CanQuery(n) <==> Routes(n);
    var v := Remains(q, n, peerId);
    if v.Some? {
      IncludesIff(v.value, "\"tombstone\"");
      IncludesIff(v.value, "\"dead\"");
    }
  }

  /** The stale records are counted one for each such survivor. */
  lemma {:induction false} StaleAre(q: Query, survivors: seq<Node>, peerId: string) returns (at: seq<nat>)
    ensures PositionsOf(at, survivors, Outdated(q, peerId)) && StaleCount(q, survivors, peerId) == |at|
  {
    if survivors == [] {
      at := [];
    } else {
      var init, last := survivors[..|survivors| - 1], survivors[|survivors| - 1];
      assert survivors == init + [last];
      at := StaleAre(q, init, peerId);
      PositionsStep(at, init, last, Outdated(q, peerId));
      OutdatedIff(q, last, peerId);
      if Outdated(q, peerId)(last) { at := at + [|init|]; }
    }
  }

  /** Each of them costs a tenth, after the half that any record costs; five leave nothing. */
  lemma {:induction false} StaleCosts(q: Query, survivors: seq<Node>, peerId: string, at: seq<nat>)
    requires |at| == StaleCount(q, survivors, peerId)
    ensures var r := TombstoneOf(q, survivors, peerId);
      !r.deadNodeAbsentFromDHT ==>
        TombstoneScore(r) == if |at| >= 5 then 0.0 else (5 - |at|) as real / 10.0
  {
  }

  // ----- peer counts -----

  ghost predicate LastWith(nodes: seq<Node>, id: string, i: int) {
    0 <= i < |nodes| && nodes[i].peerId == id && forall j :: i < j < |nodes| ==> nodes[j].peerId != id
  }

  /** The count under an id is that of the last node with the id. */
  lemma {:induction false} PeerCountsAre(nodes: seq<Node>, id: string, i: int)
    requires LastWith(nodes, id, i)
    ensures id in PeerCounts(nodes) && PeerCounts(nodes)[id] == |PeersOf(nodes[i])|
  {
    var n := |nodes| - 1;
    if i < n {
      assert nodes[n].peerId != id;
      PeerCountsAre(nodes[..n], id, i);
    }
  }

  lemma {:induction false} PeerCountsOnly(nodes: seq<Node>, id: string)
    requires id in PeerCounts(nodes)
    ensures exists i :: LastWith(nodes, id, i)
  {
    var n := |nodes| - 1;
    if nodes[n].peerId == id {
      assert LastWith(nodes, id, n);
    } else {
      PeerCountsOnly(nodes[..n], id);
      var i :| LastWith(nodes[..n], id, i);
      assert LastWith(nodes, id, i);
    }
  }
}
