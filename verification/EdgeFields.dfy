/** The causal edges, told from the fields of the events: which there are, each once, and in which order the
    walk along them lists the effects of an event. */
module EdgeFields {
  import opened Text
  import opened Events
  import opened Causal
  import opened Ancestry
  import opened Walk
  import EdgeOrder

  // ----- which edges -----

  /** No event of this kind between x and y in logical time. */
  ghost predicate NoneBetween(events: seq<Event>, like: Event -> bool, x: Event, y: Event) {
    x.time < y.time && forall z :: z in events && like(z) ==> z.time <= x.time || y.time <= z.time
  }

  function AboutNode(node: string): Event -> bool { (e: Event) => e.nodeId == Some(node) }

  function OfRun(run: string): Event -> bool { (e: Event) => e.runId == run }

  ghost predicate Joins(events: seq<Event>, kind: EdgeKind, x: Event, y: Event) {
    match kind
    case Explicit => y.parentId == Some(x.id) && x.id != ""
    case SameNode =>
      exists node :: node != "" && x.nodeId == Some(node) && y.nodeId == Some(node)
        && NoneBetween(events, AboutNode(node), x, y)
    case SameRun => x.runId == y.runId && x.tool != y.tool && NoneBetween(events, OfRun(x.runId), x, y)
  }

  lemma {:induction false} ConsecutiveIff(events: seq<Event>, nameOf: Naming, x: Event, y: Event)
    requires DistinctTimes(events)
    ensures Consecutive(events, nameOf, x, y) <==> EdgeOrder.NextNamed(events, nameOf, x, y)
  {
    if k, i :| NextInGroup(events, nameOf, k, i, x, y) {
      EdgeOrder.NeighboursAreNext(events, nameOf, k, i);
    }
    if EdgeOrder.NextNamed(events, nameOf, x, y) {
      var i := EdgeOrder.NextAreNeighbours(events, nameOf, nameOf(x).value, x, y);
      assert NextInGroup(events, nameOf, nameOf(x).value, i, x, y);
    }
  }

  lemma {:induction false} NodeRuleIff(events: seq<Event>, x: Event, y: Event)
    requires DistinctTimes(events) && x in events && y in events
    ensures Consecutive(events, NodeOf, x, y) <==> Joins(events, SameNode, x, y)
  {
    ConsecutiveIff(events, NodeOf, x, y);
    forall z: Event, node: string | node != "" ensures NodeOf(z) == Some(node) <==> AboutNode(node)(z) { }
    if EdgeOrder.NextNamed(events, NodeOf, x, y) {
      assert NoneBetween(events, AboutNode(x.nodeId.value), x, y);
    }
  }

  lemma {:induction false} RunRuleIff(events: seq<Event>, x: Event, y: Event)
    requires DistinctTimes(events) && x in events && y in events
    ensures Consecutive(events, RunOf, x, y) && x.tool != y.tool <==> Joins(events, SameRun, x, y)
  {
    ConsecutiveIff(events, RunOf, x, y);
    forall z: Event ensures RunOf(z) == RunOf(x) <==> OfRun(x.runId)(z) { }
  }

  /** An event is joined to the events it names as parent, to the next event about its node, and to the next
      event of its run where the tool changes; there are no other edges. */
  lemma {:induction false} EdgesAre(events: seq<Event>, edge: Edge)
    requires DistinctTimes(events)
    ensures edge in CausalEdges(events) <==> exists x, y ::
      x in events && y in events && edge.from == x.id && edge.to == y.id && Joins(events, edge.kind, x, y)
  {
    EdgesIff(events, edge);
    forall x, y | x in events && y in events ensures Rule(events, edge.kind, x, y) <==> Joins(events, edge.kind, x, y) {
      if edge.kind == SameNode { NodeRuleIff(events, x, y); }
      if edge.kind == SameRun { RunRuleIff(events, x, y); }
    }
    forall x, y
      ensures ByRule(events, edge, x, y) <==>
        x in events && y in events && edge.from == x.id && edge.to == y.id && Joins(events, edge.kind, x, y)
    {
    }
  }

  // ----- each once -----

  lemma {:induction false} DistinctConcat<T>(a: seq<T>, b: seq<T>)
    requires Distinct(a) && Distinct(b) && forall x :: x in a ==> x !in b
    ensures Distinct(a + b)
  {
    forall i, j | 0 <= i < j < |a + b| ensures (a + b)[i] != (a + b)[j] {
      assert i < |a| ==> (a + b)[i] in a;
      assert j >= |a| ==> (a + b)[j] in b;
    }
  }

  lemma {:induction false} ParentEdgesOnce(ids: set<string>, events: seq<Event>)
    requires DistinctIds(events)
    ensures Distinct(ParentEdges(ids, events))
    ensures forall e :: e in ParentEdges(ids, events) ==> e.kind == Explicit && e.to in Ids(events)
  {
    if events != [] {
      var rest := ParentEdges(ids, events[1..]);
      ParentEdgesOnce(ids, events[1..]);
      assert events == [events[0]] + events[1..];
      assert DistinctIds(events[1..]);
      assert events[0].id !in Ids(events[1..]);
      if HasParent(ids, events[0]) {
        DistinctConcat([Edge(events[0].parentId.value, events[0].id, Explicit)], rest);
      }
    }
  }

  lemma {:induction false} ChainOnce(s: seq<Event>, kind: EdgeKind)
    requires DistinctIds(s)
    ensures Distinct(Chain(s, kind))
    ensures forall e :: e in Chain(s, kind) ==> e.kind == kind && e.from in Ids(s)
  {
    if |s| >= 2 {
      ChainOnce(s[1..], kind);
      assert s == [s[0]] + s[1..];
      assert s[0].id !in Ids(s[1..]);
      DistinctConcat([Edge(s[0].id, s[1].id, kind)], Chain(s[1..], kind));
    }
  }

  ghost predicate Disjoint(groups: seq<seq<Event>>) {
    && (forall i :: 0 <= i < |groups| ==> DistinctIds(SortByTime(groups[i])))
    && forall i, j, x, y :: 0 <= i < j < |groups| && x in groups[i] && y in groups[j] ==> x.id != y.id
  }

  lemma {:induction false} ChainsOnce(groups: seq<seq<Event>>, kind: EdgeKind)
    requires Disjoint(groups)
    ensures Distinct(Chains(groups, kind))
    ensures forall e :: e in Chains(groups, kind) ==>
      e.kind == kind && exists i, x :: 0 <= i < |groups| && x in groups[i] && e.from == x.id
  {
    if groups != [] {
      var g, rest := groups[0], groups[1..];
      assert groups == [g] + rest;
      ChainsOnce(rest, kind);
      ChainOnce(SortByTime(g), kind);
      SortSorts(g);
      forall e | e in Chain(SortByTime(g), kind) ensures exists x :: x in groups[0] && e.from == x.id {
        var x :| x in SortByTime(g) && x.id == e.from;
      }
      forall e | e in Chains(rest, kind) ensures exists i, x :: 0 < i < |groups| && x in groups[i] && e.from == x.id {
        var i, x: Event :| 0 <= i < |rest| && x in rest[i] && e.from == x.id;
        assert x in groups[i + 1];
      }
      DistinctConcat(Chain(SortByTime(g), kind), Chains(rest, kind));
    }
  }

  lemma {:induction false} SortedIdsDistinct(events: seq<Event>, p: Event -> bool)
    requires DistinctIds(events) && DistinctTimes(events)
    ensures DistinctIds(SortByTime(Filter(events, p)))
  {
    var s := SortByTime(Filter(events, p));
    FilterDistinctTimes(events, p);
    SortStrict(Filter(events, p));
    SortSorts(Filter(events, p));
    forall i, j | 0 <= i < j < |s| ensures s[i].id != s[j].id {
      assert s[i] in s && s[j] in s;
      if s[i].id == s[j].id { SameIdSameEvent(events, s[i], s[j]); }
    }
  }

  lemma {:induction false} SameIdSameEvent(events: seq<Event>, x: Event, y: Event)
    requires DistinctIds(events) && x in events && y in events && x.id == y.id
    ensures x == y
  {
  }

  lemma {:induction false} GroupsDisjoint(events: seq<Event>, nameOf: Naming, groups: Groups)
    requires DistinctIds(events) && DistinctTimes(events) && Grouped(groups, events, nameOf)
    ensures Disjoint(groups.Values())
  {
    var v := groups.Values();
    forall i | 0 <= i < |v|
      ensures groups.order[i] in groups.data && v[i] == Filter(events, InGroup(nameOf, groups.order[i]))
      ensures DistinctIds(SortByTime(v[i]))
    {
      assert groups.order[i] in groups.data;
      SortedIdsDistinct(events, InGroup(nameOf, groups.order[i]));
    }
    forall i, j, x: Event, y: Event | 0 <= i < j < |v| && x in v[i] && y in v[j] ensures x.id != y.id {
      if x.id == y.id { SameIdSameEvent(events, x, y); }
    }
  }

  /** No edge of a causal log is listed twice. */
  lemma {:induction false} EdgesOnce(events: seq<Event>)
    requires DistinctIds(events) && DistinctTimes(events)
    ensures Distinct(CausalEdges(events))
  {
    GroupsAre(events, NodeOf);
    GroupsAre(events, RunOf);
    GroupsDisjoint(events, NodeOf, NodeGroups(events));
    GroupsDisjoint(events, RunOf, RunGroups(events));
    var a, b, c := ParentEdges(Ids(events), events), Chains(NodeGroups(events).Values(), SameNode),
                   Chains(RunGroups(events).Values(), SameRun);
    ParentEdgesOnce(Ids(events), events);
    ChainsOnce(NodeGroups(events).Values(), SameNode);
    ChainsOnce(RunGroups(events).Values(), SameRun);
    DistinctConcat(a, b);
    DistinctConcat(a + b, c);
  }

  // ----- the order of the descendants -----

  /** getDescendants over the causal edges of a ledger log: every effect of an event is listed before it. */
  lemma {:induction false} EffectsFirst(events: seq<Event>, id: string, i: nat, edge: Edge)
    requires CausalLog(events)
    requires var r := Descendants(events, CausalEdges(events), id);
      i < |r| && edge in CausalEdges(events) && edge.from == r[i].id
    ensures var r := Descendants(events, CausalEdges(events), id);
      exists c :: c in r[..i] && c.id == edge.to
  {
    var edges := CausalEdges(events);
    var g, all := Adjacency(map[], edges, false), Ends(edges) + {id};
    var rank := (x: string) => -TimeOf(events, x);
    AdjacencyWithin(edges, false);
    forall x, n | n in Next(g, x) ensures rank(n) < rank(x) {
      AdjacencyIff(edges, false, x, n);
      var e :| e in edges && e.from == x && e.to == n;
      EdgesGoForward(events, e);
    }
    WalkTopological(g, all, id, rank);
    var order, byId := Order(g, all, id), ById(events);
    var k := CollectPlace(byId, order, i);
    ByIdIs(events);
    AdjacencyIff(edges, false, edge.from, edge.to);
    assert NextBefore(g, order, k);
    EdgesGoForward(events, edge);
    CollectIs(byId, order[..k]);
    assert byId[edge.to] in Collect(byId, order)[..i];
  }
}
