/** The documented edge rules against the edges that are built: one edge between neighbours on a
    node's timeline stands for all the later pairs. */
module CausalRules {
  import opened Events
  import opened Causal
  import opened Ancestry

  // ----- paths -----

  lemma {:induction false} CausesSelf(edges: seq<Edge>, a: string)
    ensures Causes(edges, a, a)
  {
    assert PathFromTo(edges, a, a, [a]);
  }

  lemma {:induction false} CausesEdge(edges: seq<Edge>, a: string, b: string)
    requires HasEdge(edges, a, b)
    ensures Causes(edges, a, b)
  {
    assert PathFromTo(edges, a, b, [a, b]);
  }

  lemma {:induction false} CausesTransitive(edges: seq<Edge>, a: string, b: string, c: string)
    requires Causes(edges, a, b) && Causes(edges, b, c)
    ensures Causes(edges, a, c)
  {
    var p :| PathFromTo(edges, a, b, p);
    var q :| PathFromTo(edges, b, c, q);
    var r := p + q[1..];
    forall i | 0 <= i < |r| - 1 ensures HasEdge(edges, r[i], r[i + 1]) {
      if i < |p| - 1 {
        assert HasEdge(edges, p[i], p[i + 1]);
      } else {
        var j := i - (|p| - 1);
        assert r[i] == q[j] && r[i + 1] == q[j + 1];
        assert HasEdge(edges, q[j], q[j + 1]);
      }
    }
    assert PathFromTo(edges, a, c, r);
  }

  // ----- the same-node rule -----

  function NodeEdges(events: seq<Event>): seq<Edge> {
    GroupsAre(events, NodeOf);
    Chains(NodeGroups(events).Values(), SameNode)
  }

  lemma {:induction false} NodeEdgesIff(events: seq<Event>, edge: Edge)
    ensures edge in NodeEdges(events) <==> edge.kind == SameNode && edge in CausalEdges(events)
  {
    NodePart(events, edge);
    EdgesIff(events, edge);
  }

  lemma {:induction false} NeighbourEdge(events: seq<Event>, k: string, i: nat, x: Event, y: Event)
    requires NextInGroup(events, NodeOf, k, i, x, y)
    ensures HasEdge(NodeEdges(events), x.id, y.id)
  {
    ConsecutiveIn(events, NodeOf, x, y);
    var edge := Edge(x.id, y.id, SameNode);
    assert ByRule(events, edge, x, y);
    NodePart(events, edge);
  }

  lemma {:induction false} TimelineCauses(events: seq<Event>, k: string, i: nat, j: nat)
    requires i <= j < |SortByTime(Filter(events, InGroup(NodeOf, k)))|
    ensures var s := SortByTime(Filter(events, InGroup(NodeOf, k)));
      Causes(NodeEdges(events), s[i].id, s[j].id)
    decreases j - i
  {
    var s := SortByTime(Filter(events, InGroup(NodeOf, k)));
    if i == j {
      CausesSelf(NodeEdges(events), s[i].id);
    } else {
      TimelineCauses(events, k, i, j - 1);
      NeighbourEdge(events, k, j - 1, s[j - 1], s[j]);
      CausesEdge(NodeEdges(events), s[j - 1].id, s[j].id);
      CausesTransitive(NodeEdges(events), s[i].id, s[j - 1].id, s[j].id);
    }
  }

  /** An earlier event about the same node is a cause, along same-node edges alone. */
  lemma {:induction false} EarlierOnNodeCauses(events: seq<Event>, a: Event, b: Event)
    requires a in events && b in events && NodeOf(a).Some? && NodeOf(a) == NodeOf(b) && a.time < b.time
    ensures Causes(NodeEdges(events), a.id, b.id)
  {
    var k := NodeOf(a).value;
    var f := Filter(events, InGroup(NodeOf, k));
    SortSorts(f);
    var s := SortByTime(f);
    var i :| 0 <= i < |s| && s[i] == a;
    var j :| 0 <= j < |s| && s[j] == b;
    TimelineCauses(events, k, i, j);
  }

  // ----- how many same-node edges -----

  function Sum(groups: seq<seq<Event>>): nat {
    if groups == [] then 0 else |groups[0]| + Sum(groups[1..])
  }

  lemma {:induction false} ChainCount(s: seq<Event>)
    ensures |Chain(s, SameNode)| == if s == [] then 0 else |s| - 1
  {
    if |s| >= 2 { ChainCount(s[1..]); }
  }

  lemma {:induction false} ChainsCount(groups: seq<seq<Event>>)
    requires forall i :: 0 <= i < |groups| ==> groups[i] != []
    ensures |Chains(groups, SameNode)| + |groups| == Sum(groups)
  {
    if groups != [] {
      SortSorts(groups[0]);
      ChainCount(SortByTime(groups[0]));
      ChainsCount(groups[1..]);
    }
  }

  lemma {:induction false} SumUpdate(groups: seq<seq<Event>>, i: nat, g: seq<Event>)
    requires i < |groups| && |g| == |groups[i]| + 1
    ensures Sum(groups[i := g]) == Sum(groups) + 1
  {
    if i == 0 {
      assert groups[i := g][1..] == groups[1..];
    } else {
      SumUpdate(groups[1..], i - 1, g);
      assert groups[i := g][1..] == groups[1..][i - 1 := g];
    }
  }

  lemma {:induction false} SumAppend(groups: seq<seq<Event>>, g: seq<Event>)
    ensures Sum(groups + [g]) == Sum(groups) + |g|
  {
    if groups == [] {
      assert groups + [g] == [g];
    } else {
      SumAppend(groups[1..], g);
      assert (groups + [g])[1..] == groups[1..] + [g];
    }
  }

  lemma {:induction false} AddToGroupSum(groups: Groups, k: string, e: Event)
    requires groups.Valid()
    ensures Sum(AddToGroup(groups, Some(k), e).Values()) == Sum(groups.Values()) + 1
  {
    var g := AddToGroup(groups, Some(k), e);
    if k in groups.data {
      var i :| 0 <= i < |groups.order| && groups.order[i] == k;
      assert g.Values() == groups.Values()[i := groups.data[k] + [e]];
      SumUpdate(groups.Values(), i, groups.data[k] + [e]);
    } else {
      assert g.data[k] == [e];
      assert g.Values() == groups.Values() + [[e]];
      SumAppend(groups.Values(), [e]);
    }
  }

  function HasNode(): Event -> bool { (e: Event) => NodeOf(e).Some? }

  lemma {:induction false} GroupSum(groups: Groups, events: seq<Event>)
    requires groups.Valid()
    ensures Group(groups, events, NodeOf).Valid()
    ensures Sum(Group(groups, events, NodeOf).Values()) == Sum(groups.Values()) + |Filter(events, HasNode())|
    decreases |events|
  {
    if events != [] {
      var g := AddToGroup(groups, NodeOf(events[0]), events[0]);
      if NodeOf(events[0]).Some? { AddToGroupSum(groups, NodeOf(events[0]).value, events[0]); }
      GroupSum(g, events[1..]);
    }
  }

  /** One edge fewer than events on each node: the same-node edges and the nodes together number
      the events that name a node. */
  lemma {:induction false} NodeEdgeCount(events: seq<Event>)
    ensures |NodeEdges(events)| + |NodeGroups(events).order| == |Filter(events, HasNode())|
  {
    var groups := NodeGroups(events);
    GroupsAre(events, NodeOf);
    GroupSum(NO_GROUPS, events);
    forall i | 0 <= i < |groups.Values()| ensures groups.Values()[i] != [] {
      var k := groups.order[i];
      assert k in groups.data;
      var e :| e in events && NodeOf(e) == Some(k);
      assert e in Filter(events, InGroup(NodeOf, k));
    }
    ChainsCount(groups.Values());
  }

  // ----- the documented rules -----

  /** A -> B if B.parent_id == A.id, or A and B share a node and A is earlier. */
  ghost predicate DocumentedEdge(events: seq<Event>, x: Event, y: Event) {
    && x in events && y in events
    && ((x.id != "" && y.parentId == Some(x.id))
        || (NodeOf(x).Some? && NodeOf(x) == NodeOf(y) && x.time < y.time))
  }

  /** events[...] joined by documented edges, from a to b. */
  ghost predicate DocumentedPath(events: seq<Event>, p: seq<Event>) {
    forall i :: 0 <= i < |p| - 1 ==> DocumentedEdge(events, p[i], p[i + 1])
  }

  function RuleEdges(events: seq<Event>): seq<Edge> {
    ParentEdges(Ids(events), events) + NodeEdges(events)
  }

  lemma {:induction false} MoreEdges(edges: seq<Edge>, more: seq<Edge>, a: string, b: string)
    requires Causes(edges, a, b) && forall e :: e in edges ==> e in more
    ensures Causes(more, a, b)
  {
    var p :| PathFromTo(edges, a, b, p);
    forall i | 0 <= i < |p| - 1 ensures HasEdge(more, p[i], p[i + 1]) {
      assert HasEdge(edges, p[i], p[i + 1]);
    }
    assert PathFromTo(more, a, b, p);
  }

  lemma {:induction false} DocumentedCauses(events: seq<Event>, p: seq<Event>)
    requires p != [] && DocumentedPath(events, p)
    ensures Causes(RuleEdges(events), p[0].id, p[|p| - 1].id)
  {
    var edges := RuleEdges(events);
    if |p| == 1 {
      CausesSelf(edges, p[0].id);
    } else {
      var x, y := p[0], p[1];
      assert DocumentedEdge(events, p[0], p[0 + 1]);
      if x.id != "" && y.parentId == Some(x.id) {
        var edge := Edge(x.id, y.id, Explicit);
        assert ByRule(events, edge, x, y);
        ParentPart(events, edge);
        CausesEdge(edges, x.id, y.id);
      } else {
        EarlierOnNodeCauses(events, x, y);
        MoreEdges(NodeEdges(events), edges, x.id, y.id);
      }
      DocumentedCauses(events, p[1..]);
      CausesTransitive(edges, x.id, y.id, p[|p| - 1].id);
    }
  }

  lemma {:induction false} RuleEdgeDocumented(events: seq<Event>, edge: Edge) returns (x: Event, y: Event)
    requires DistinctTimes(events) && edge in RuleEdges(events)
    ensures DocumentedEdge(events, x, y) && x.id == edge.from && y.id == edge.to
  {
    ParentPart(events, edge);
    NodePart(events, edge);
    x, y :| ByRule(events, edge, x, y);
    if edge.kind == SameNode { ConsecutiveIn(events, NodeOf, x, y); }
  }

  lemma {:induction false} CausesDocumented(events: seq<Event>, a: Event, p: seq<string>) returns (q: seq<Event>)
    requires DistinctIds(events) && DistinctTimes(events) && a in events
    requires p != [] && p[|p| - 1] == a.id && CausalPath(RuleEdges(events), p)
    ensures q != [] && q[|q| - 1] == a && q[0].id == p[0] && q[0] in events && DocumentedPath(events, q)
    decreases |p|
  {
    if |p| == 1 {
      q := [a];
    } else {
      assert HasEdge(RuleEdges(events), p[0], p[0 + 1]);
      var edge :| edge in RuleEdges(events) && edge.from == p[0] && edge.to == p[1];
      var x, y := RuleEdgeDocumented(events, edge);
      forall i | 0 <= i < |p[1..]| - 1 ensures HasEdge(RuleEdges(events), p[1..][i], p[1..][i + 1]) {
        assert HasEdge(RuleEdges(events), p[i + 1], p[i + 1 + 1]);
      }
      q := CausesDocumented(events, a, p[1..]);
      var m :| 0 <= m < |events| && events[m] == y;
      var n :| 0 <= n < |events| && events[n] == q[0];
      assert y == q[0];
      q := [x] + q;
    }
  }

  /** So of two events about one node the earlier is among the ancestors of the later. */
  lemma {:induction false} EarlierIsAncestor(events: seq<Event>, a: Event, b: Event)
    requires DistinctIds(events) && a in events && b in events
    requires NodeOf(a).Some? && NodeOf(a) == NodeOf(b) && a.time < b.time
    ensures a in Ancestors(events, CausalEdges(events), b.id)
  {
    EarlierOnNodeCauses(events, a, b);
    forall e | e in NodeEdges(events) ensures e in CausalEdges(events) { NodeEdgesIff(events, e); }
    MoreEdges(NodeEdges(events), CausalEdges(events), a.id, b.id);
    AncestorsExact(events, CausalEdges(events), b.id);
  }

  /** Parent edges and consecutive same-node edges give exactly the causes that the documented
      rules give, with every earlier-later pair on a node an edge. */
  lemma {:induction false} DocumentedRuleRealised(events: seq<Event>, a: Event, b: Event)
    requires DistinctIds(events) && DistinctTimes(events) && a in events && b in events
    ensures Causes(RuleEdges(events), a.id, b.id)
       <==> exists p :: p != [] && p[0] == a && p[|p| - 1] == b && DocumentedPath(events, p)
  {
    if Causes(RuleEdges(events), a.id, b.id) {
      var p :| PathFromTo(RuleEdges(events), a.id, b.id, p);
      var q := CausesDocumented(events, b, p);
      var m :| 0 <= m < |events| && events[m] == a;
      var n :| 0 <= n < |events| && events[n] == q[0];
      assert q[0] == a;
    }
    if p :| p != [] && p[0] == a && p[|p| - 1] == b && DocumentedPath(events, p) {
      DocumentedCauses(events, p);
    }
  }

  /** The edges of a log add only same-run edges to those of the documented rules. */
  lemma {:induction false} OnlySameRunAdded(events: seq<Event>, edge: Edge)
    ensures edge in CausalEdges(events) && edge.kind != SameRun <==> edge in RuleEdges(events)
  {
    ParentPart(events, edge);
    NodePart(events, edge);
    EdgesIff(events, edge);
  }

  // ----- the order of the returned list -----

  /** What the comment on buildCausalEdges promises. */
  ghost predicate SortedBySource(events: seq<Event>) {
    var edges := CausalEdges(events);
    forall i, j :: 0 <= i < j < |edges| ==> TimeOf(events, edges[i].from) <= TimeOf(events, edges[j].from)
  }

  /** The list holds all explicit edges first, so it is out of order as soon as some explicit edge
      has a later source than an edge of another kind. */
  lemma {:induction false} ExplicitEdgesFirst(events: seq<Event>, explicit: Edge, other: Edge)
    requires explicit in CausalEdges(events) && explicit.kind == Explicit
    requires other in CausalEdges(events) && other.kind != Explicit
    requires TimeOf(events, other.from) < TimeOf(events, explicit.from)
    ensures !SortedBySource(events)
  {
    EdgesIff(events, explicit);
    EdgesIff(events, other);
    ParentPart(events, explicit);
    ParentPart(events, other);
    var parents, edges := ParentEdges(Ids(events), events), CausalEdges(events);
    var i :| 0 <= i < |parents| && parents[i] == explicit;
    var j :| 0 <= j < |edges| && edges[j] == other;
    assert edges[i] == explicit;
    assert forall m :: 0 <= m < |parents| ==> edges[m] == parents[m] && parents[m] != other;
  }

  lemma {:induction false} FilterFirstAndThird(a: Event, b: Event, c: Event, p: Event -> bool)
    requires p(a) && !p(b) && p(c)
    ensures Filter([a, b, c], p) == [a, c]
  {
    FilterCons(c, [], p);
    FilterCons(b, [c], p);
    FilterCons(a, [b, c], p);
    assert [c] + [] == [c] && [b] + [c] == [b, c] && [a] + [b, c] == [a, b, c];
  }

  lemma {:induction false} FirstAndThird(a: Event, b: Event, c: Event, k: string)
    requires NodeOf(a) == NodeOf(c) == Some(k) && NodeOf(b) != Some(k) && a.time < c.time
    ensures ByRule([a, b, c], Edge(a.id, c.id, SameNode), a, c)
  {
    var events := [a, b, c];
    FilterFirstAndThird(a, b, c, InGroup(NodeOf, k));
    SortOfSorted([a, c]);
    assert NextInGroup(events, NodeOf, k, 0, a, c);
    assert a in events && c in events;
  }

  lemma {:induction false} ThreeEventLog(a: Event, b: Event, c: Event)
    requires a.time < b.time < c.time && a.id != b.id && b.id != c.id && a.id != c.id
    requires a.parentId == None && b.parentId == None && c.parentId == Some(b.id)
    ensures CausalLog([a, b, c])
    ensures TimeOf([a, b, c], a.id) < TimeOf([a, b, c], b.id)
  {
    ByIdIs([a, b, c]);
    assert a in [a, b, c] && b in [a, b, c];
  }

  /** Such a log: b is about another node, c follows b and is about the node of a. */
  lemma {:induction false} EdgesNotSortedBySource(a: Event, b: Event, c: Event, k: string)
    requires NodeOf(a) == NodeOf(c) == Some(k) && NodeOf(b) != Some(k)
    requires a.time < b.time < c.time
    requires a.id != b.id && b.id != c.id && a.id != c.id && b.id != "" && c.parentId == Some(b.id)
    requires a.parentId == None && b.parentId == None
    ensures CausalLog([a, b, c]) && !SortedBySource([a, b, c])
  {
    var events := [a, b, c];
    var explicit, other := Edge(b.id, c.id, Explicit), Edge(a.id, c.id, SameNode);
    ThreeEventLog(a, b, c);
    assert b in events && c in events;
    assert ByRule(events, explicit, b, c);
    FirstAndThird(a, b, c, k);
    EdgesIff(events, explicit);
    EdgesIff(events, other);
    ExplicitEdgesFirst(events, explicit, other);
  }
}
