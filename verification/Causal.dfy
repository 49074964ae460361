/** The causal index: edges between events, and the events reachable along them. */
module Causal {
  import opened Events

  datatype EdgeKind = Explicit | SameNode | SameRun

  datatype Edge = Edge(from: string, to: string, kind: EdgeKind)

  // ----- buildCausalEdges -----

  function Ids(events: seq<Event>): set<string> { set e | e in events :: e.id }

  /** `e.parent_id && byId.has(e.parent_id)` */
  predicate HasParent(ids: set<string>, e: Event) {
    e.parentId.Some? && e.parentId.value != "" && e.parentId.value in ids
  }

  function ParentEdges(ids: set<string>, events: seq<Event>): seq<Edge> {
    if events == [] then []
    else
      var rest := ParentEdges(ids, events[1..]);
      if HasParent(ids, events[0])
      then [Edge(events[0].parentId.value, events[0].id, Explicit)] + rest else rest
  }

  /** What events are grouped by. */
  type Naming = Event -> Option<string>

  type Groups = JsMap<string, seq<Event>>

  const NO_GROUPS: Groups := JsMap([], map[])

  /** The node an event is about; an empty node_id counts as none. */
  function NodeOf(e: Event): Option<string> {
    if e.nodeId.Some? && e.nodeId.value != "" then e.nodeId else None
  }

  function RunOf(e: Event): Option<string> { Some(e.runId) }

  function AddToGroup(groups: Groups, name: Option<string>, e: Event): Groups {
    match name
    case None => groups
    case Some(k) => groups.Set(k, (if k in groups.data then groups.data[k] else []) + [e])
  }

  function Group(groups: Groups, events: seq<Event>, nameOf: Naming): Groups
    decreases |events|
  {
    if events == [] then groups
    else Group(AddToGroup(groups, nameOf(events[0]), events[0]), events[1..], nameOf)
  }

  /** Edges between consecutive events; a same-run edge only where the tool changes. */
  function Chain(sorted: seq<Event>, kind: EdgeKind): seq<Edge> {
    if |sorted| < 2 then []
    else
      var rest := Chain(sorted[1..], kind);
      if kind == SameRun && sorted[0].tool == sorted[1].tool then rest
      else [Edge(sorted[0].id, sorted[1].id, kind)] + rest
  }

  function Chains(groups: seq<seq<Event>>, kind: EdgeKind): seq<Edge> {
    if groups == [] then [] else Chain(SortByTime(groups[0]), kind) + Chains(groups[1..], kind)
  }

  function NodeGroups(events: seq<Event>): Groups { Group(NO_GROUPS, events, NodeOf) }

  function RunGroups(events: seq<Event>): Groups { Group(NO_GROUPS, events, RunOf) }

  function CausalEdges(events: seq<Event>): seq<Edge> {
    GroupsAre(events, NodeOf);
    GroupsAre(events, RunOf);
    ParentEdges(Ids(events), events)
    + Chains(NodeGroups(events).Values(), SameNode)
    + Chains(RunGroups(events).Values(), SameRun)
  }

  function InGroup(nameOf: Naming, k: string): Event -> bool {
    (e: Event) => nameOf(e) == Some(k)
  }

  /** Each group holds the events of its name, in their order; every name that occurs has one. */
  ghost predicate Grouped(groups: Groups, events: seq<Event>, nameOf: Naming) {
    && groups.Valid()
    && (forall k :: k in groups.data <==> exists e :: e in events && nameOf(e) == Some(k))
    && (forall k :: k in groups.data ==> groups.data[k] == Filter(events, InGroup(nameOf, k)))
  }

  lemma {:induction false} GroupedStep(groups: Groups, done: seq<Event>, e: Event, nameOf: Naming)
    requires Grouped(groups, done, nameOf)
    ensures Grouped(AddToGroup(groups, nameOf(e), e), done + [e], nameOf)
  {
    var g := AddToGroup(groups, nameOf(e), e);
    forall k ensures k in g.data <==> exists x :: x in done + [e] && nameOf(x) == Some(k) {
      if nameOf(e) == Some(k) { assert e in done + [e]; }
      if k in groups.data {
        var x :| x in done && nameOf(x) == Some(k);
        assert x in done + [e];
      }
    }
    forall k | k in g.data ensures g.data[k] == Filter(done + [e], InGroup(nameOf, k)) {
      FilterAppend(done, e, InGroup(nameOf, k));
      if k !in groups.data { NoneInGroup(done, nameOf, k); }
    }
  }

  lemma {:induction false} NoneInGroup(events: seq<Event>, nameOf: Naming, k: string)
    requires forall e :: e in events ==> nameOf(e) != Some(k)
    ensures Filter(events, InGroup(nameOf, k)) == []
  {
    if events != [] { NoneInGroup(events[1..], nameOf, k); }
  }

  lemma {:induction false} GroupsFrom(groups: Groups, done: seq<Event>, events: seq<Event>, nameOf: Naming)
    requires Grouped(groups, done, nameOf)
    ensures Grouped(Group(groups, events, nameOf), done + events, nameOf)
    decreases |events|
  {
    if events == [] {
      assert done + events == done;
    } else {
      GroupedStep(groups, done, events[0], nameOf);
      GroupsFrom(AddToGroup(groups, nameOf(events[0]), events[0]), done + [events[0]], events[1..], nameOf);
      assert done + [events[0]] + events[1..] == done + events;
    }
  }

  lemma {:induction false} GroupsAre(events: seq<Event>, nameOf: Naming)
    ensures Grouped(Group(NO_GROUPS, events, nameOf), events, nameOf)
  {
    GroupsFrom(NO_GROUPS, [], events, nameOf);
    assert [] + events == events;
  }

  // ----- the loops of the source -----

  method CollectGroups(events: seq<Event>, nameOf: Naming) returns (groups: Groups)
    ensures groups == Group(NO_GROUPS, events, nameOf)
  {
    groups := NO_GROUPS;
    for i := 0 to |events|
      invariant Group(groups, events[i..], nameOf) == Group(NO_GROUPS, events, nameOf)
    {
      assert events[i..][0] == events[i] && events[i..][1..] == events[i + 1..];
      var name := nameOf(events[i]);
      if name.Some? {
        var arr := if groups.Has(name.value) then groups.data[name.value] else [];
        arr := arr + [events[i]];
        groups := groups.Set(name.value, arr);
      }
    }
  }

  method PushChain(edges: seq<Edge>, sorted: seq<Event>, kind: EdgeKind) returns (r: seq<Edge>)
    ensures r == edges + Chain(sorted, kind)
  {
    r := edges;
    if sorted == [] { return; }
    for i := 1 to |sorted|
      invariant r + Chain(sorted[i - 1..], kind) == edges + Chain(sorted, kind)
    {
      assert sorted[i - 1..][1..] == sorted[i..];
      if kind != SameRun || sorted[i - 1].tool != sorted[i].tool {
        r := r + [Edge(sorted[i - 1].id, sorted[i].id, kind)];
      }
    }
    assert |sorted[|sorted| - 1..]| == 1;
  }

  method PushChains(edges: seq<Edge>, groups: seq<seq<Event>>, kind: EdgeKind) returns (r: seq<Edge>)
    ensures r == edges + Chains(groups, kind)
  {
    r := edges;
    for i := 0 to |groups|
      invariant r + Chains(groups[i..], kind) == edges + Chains(groups, kind)
    {
      ChainsStep(groups, i, kind);
      r := PushChain(r, SortByTime(groups[i]), kind);
    }
    assert groups[|groups|..] == [];
  }

  lemma {:induction false} ChainsStep(groups: seq<seq<Event>>, i: nat, kind: EdgeKind)
    requires i < |groups|
    ensures Chains(groups[i..], kind) == Chain(SortByTime(groups[i]), kind) + Chains(groups[i + 1..], kind)
  {
    assert groups[i..][0] == groups[i] && groups[i..][1..] == groups[i + 1..];
  }

  method PushParents(events: seq<Event>) returns (edges: seq<Edge>)
    ensures edges == ParentEdges(Ids(events), events)
  {
    var ids: set<string> := {};
    for i := 0 to |events|
      invariant ids == Ids(events[..i])
    {
      assert events[..i + 1] == events[..i] + [events[i]];
      ids := ids + {events[i].id};
    }
    assert events[..|events|] == events;

    edges := [];
    for i := 0 to |events|
      invariant edges + ParentEdges(ids, events[i..]) == ParentEdges(ids, events)
    {
      assert events[i..][0] == events[i] && events[i..][1..] == events[i + 1..];
      if HasParent(ids, events[i]) {
        edges := edges + [Edge(events[i].parentId.value, events[i].id, Explicit)];
      }
    }
    assert events[|events|..] == [];
  }

  method BuildCausalEdges(events: seq<Event>) returns (edges: seq<Edge>)
    ensures edges == CausalEdges(events)
  {
    GroupsAre(events, NodeOf);
    GroupsAre(events, RunOf);
    edges := PushParents(events);
    var nodes := CollectGroups(events, NodeOf);
    edges := PushChains(edges, nodes.Values(), SameNode);
    var runs := CollectGroups(events, RunOf);
    edges := PushChains(edges, runs.Values(), SameRun);
  }

  // ----- where each edge comes from -----

  /** x and y stand next to each other in the sorted group of some name. */
  ghost predicate Consecutive(events: seq<Event>, nameOf: Naming, x: Event, y: Event) {
    exists k, i :: NextInGroup(events, nameOf, k, i, x, y)
  }

  ghost predicate NextInGroup(events: seq<Event>, nameOf: Naming, k: string, i: nat, x: Event, y: Event) {
    var s := SortByTime(Filter(events, InGroup(nameOf, k)));
    i + 1 < |s| && s[i] == x && s[i + 1] == y
  }

  /** The rule each kind of edge follows, stated on the events. */
  ghost predicate Rule(events: seq<Event>, kind: EdgeKind, x: Event, y: Event) {
    match kind
    case Explicit => y.parentId == Some(x.id) && x.id != ""
    case SameNode => Consecutive(events, NodeOf, x, y)
    case SameRun => Consecutive(events, RunOf, x, y) && x.tool != y.tool
  }

  lemma {:induction false} ParentEdgesIff(all: seq<Event>, events: seq<Event>, edge: Edge)
    ensures edge in ParentEdges(Ids(all), events) <==>
      && edge.kind == Explicit
      && exists x, y :: x in all && y in events && edge.from == x.id && edge.to == y.id && Rule(all, Explicit, x, y)
  {
    if events != [] {
      var e := events[0];
      ParentEdgesIff(all, events[1..], edge);
      assert events == [e] + events[1..];
      if HasParent(Ids(all), e) {
        var x :| x in all && x.id == e.parentId.value;
        if edge == Edge(x.id, e.id, Explicit) { assert Rule(all, Explicit, x, e); }
      }
      assert forall x :: x in all && Rule(all, Explicit, x, e) ==> HasParent(Ids(all), e);
    }
  }

  lemma {:induction false} ChainIff(s: seq<Event>, kind: EdgeKind, edge: Edge)
    ensures edge in Chain(s, kind) <==>
      exists i :: 0 <= i < |s| - 1 && edge == Edge(s[i].id, s[i + 1].id, kind)
                  && (kind == SameRun ==> s[i].tool != s[i + 1].tool)
  {
    if |s| >= 2 {
      var t := s[1..];
      ChainIff(t, kind, edge);
      if i :| 0 <= i < |s| - 1 && edge == Edge(s[i].id, s[i + 1].id, kind)
              && (kind == SameRun ==> s[i].tool != s[i + 1].tool) {
        if i > 0 {
          assert t[i - 1] == s[i] && t[i - 1 + 1] == s[i + 1];
        }
      }
      if i :| 0 <= i < |t| - 1 && edge == Edge(t[i].id, t[i + 1].id, kind)
              && (kind == SameRun ==> t[i].tool != t[i + 1].tool) {
        assert s[i + 1] == t[i] && s[i + 1 + 1] == t[i + 1];
      }
      assert s[0 + 1] == s[1];
    }
  }

  predicate InChain(g: seq<Event>, kind: EdgeKind, edge: Edge) { edge in Chain(SortByTime(g), kind) }

  lemma {:induction false} ChainsIff(groups: seq<seq<Event>>, kind: EdgeKind, edge: Edge)
    ensures edge in Chains(groups, kind) <==> exists i :: 0 <= i < |groups| && InChain(groups[i], kind, edge)
  {
    if groups != [] {
      var rest := groups[1..];
      ChainsIff(rest, kind, edge);
      if i :| 0 <= i < |rest| && InChain(rest[i], kind, edge) {
        assert groups[i + 1] == rest[i];
      }
      if i :| 0 < i < |groups| && InChain(groups[i], kind, edge) {
        assert rest[i - 1] == groups[i];
      }
    }
  }

  ghost predicate ChainRule(events: seq<Event>, nameOf: Naming, kind: EdgeKind, edge: Edge, x: Event, y: Event) {
    && Consecutive(events, nameOf, x, y)
    && edge == Edge(x.id, y.id, kind)
    && (kind == SameRun ==> x.tool != y.tool)
  }

  lemma {:induction false} ChainToRule(events: seq<Event>, nameOf: Naming, k: string, kind: EdgeKind, edge: Edge)
    requires InChain(Filter(events, InGroup(nameOf, k)), kind, edge)
    ensures exists x, y :: ChainRule(events, nameOf, kind, edge, x, y)
  {
    var s := SortByTime(Filter(events, InGroup(nameOf, k)));
    ChainIff(s, kind, edge);
    var i :| 0 <= i < |s| - 1 && edge == Edge(s[i].id, s[i + 1].id, kind)
             && (kind == SameRun ==> s[i].tool != s[i + 1].tool);
    assert NextInGroup(events, nameOf, k, i, s[i], s[i + 1]);
    assert ChainRule(events, nameOf, kind, edge, s[i], s[i + 1]);
  }

  lemma {:induction false} RuleToChain(events: seq<Event>, nameOf: Naming, kind: EdgeKind, edge: Edge, x: Event,
                                       y: Event)
    returns (k: string)
    requires ChainRule(events, nameOf, kind, edge, x, y)
    ensures InChain(Filter(events, InGroup(nameOf, k)), kind, edge)
    ensures exists e :: e in events && nameOf(e) == Some(k)
  {
    var name: string, i: nat :| NextInGroup(events, nameOf, name, i, x, y);
    k := name;
    var f := Filter(events, InGroup(nameOf, k));
    SortSorts(f);
    assert SortByTime(f)[i] in SortByTime(f);
    assert x in events && nameOf(x) == Some(k);
    ChainIff(SortByTime(f), kind, edge);
  }

  lemma {:induction false} GroupChainsIff(events: seq<Event>, nameOf: Naming, kind: EdgeKind, edge: Edge)
    requires Grouped(Group(NO_GROUPS, events, nameOf), events, nameOf)
    ensures edge in Chains(Group(NO_GROUPS, events, nameOf).Values(), kind) <==>
      exists x, y :: ChainRule(events, nameOf, kind, edge, x, y)
  {
    var groups := Group(NO_GROUPS, events, nameOf);
    ChainsIff(groups.Values(), kind, edge);
    if i :| 0 <= i < |groups.order| && InChain(groups.Values()[i], kind, edge) {
      assert groups.order[i] in groups.data;
      ChainToRule(events, nameOf, groups.order[i], kind, edge);
    }
    if x, y :| ChainRule(events, nameOf, kind, edge, x, y) {
      var k := RuleToChain(events, nameOf, kind, edge, x, y);
      assert k in groups.data;
      var j :| 0 <= j < |groups.order| && groups.order[j] == k;
      assert InChain(groups.Values()[j], kind, edge);
    }
  }

  lemma {:induction false} ConsecutiveIn(events: seq<Event>, nameOf: Naming, x: Event, y: Event)
    requires Consecutive(events, nameOf, x, y)
    ensures x in events && y in events && nameOf(x) == nameOf(y) && nameOf(x) != None && x.time <= y.time
    ensures DistinctTimes(events) ==> x.time < y.time
  {
    var k, i :| NextInGroup(events, nameOf, k, i, x, y);
    var f := Filter(events, InGroup(nameOf, k));
    SortSorts(f);
    assert x in SortByTime(f) && y in SortByTime(f);
    if DistinctTimes(events) {
      FilterDistinctTimes(events, InGroup(nameOf, k));
      SortStrict(f);
    }
  }

  lemma {:induction false} FilterDistinctTimes(events: seq<Event>, p: Event -> bool)
    requires DistinctTimes(events)
    ensures DistinctTimes(Filter(events, p))
  {
    if events != [] {
      FilterDistinctTimes(events[1..], p);
      var f := Filter(events[1..], p);
      forall j | 0 <= j < |f| ensures f[j].time != events[0].time {
        assert f[j] in events[1..];
      }
    }
  }

  ghost predicate ByRule(events: seq<Event>, edge: Edge, x: Event, y: Event) {
    x in events && y in events && edge.from == x.id && edge.to == y.id && Rule(events, edge.kind, x, y)
  }

  lemma {:induction false} ParentPart(events: seq<Event>, edge: Edge)
    ensures edge in ParentEdges(Ids(events), events) <==>
      edge.kind == Explicit && exists x, y :: ByRule(events, edge, x, y)
  {
    ParentEdgesIff(events, events, edge);
    if x, y :| x in events && y in events && edge.from == x.id && edge.to == y.id && Rule(events, Explicit, x, y) {
      if edge.kind == Explicit { assert ByRule(events, edge, x, y); }
    }
  }

  lemma {:induction false} NodePart(events: seq<Event>, edge: Edge)
    ensures Grouped(NodeGroups(events), events, NodeOf)
    ensures edge in Chains(NodeGroups(events).Values(), SameNode) <==>
      edge.kind == SameNode && exists x, y :: ByRule(events, edge, x, y)
  {
    GroupsAre(events, NodeOf);
    GroupChainsIff(events, NodeOf, SameNode, edge);
    if x, y :| ChainRule(events, NodeOf, SameNode, edge, x, y) {
      ConsecutiveIn(events, NodeOf, x, y);
      assert ByRule(events, edge, x, y);
    }
    if edge.kind == SameNode {
      if x, y :| ByRule(events, edge, x, y) {
        assert ChainRule(events, NodeOf, SameNode, edge, x, y);
      }
    }
  }

  lemma {:induction false} RunPart(events: seq<Event>, edge: Edge)
    ensures Grouped(RunGroups(events), events, RunOf)
    ensures edge in Chains(RunGroups(events).Values(), SameRun) <==>
      edge.kind == SameRun && exists x, y :: ByRule(events, edge, x, y)
  {
    GroupsAre(events, RunOf);
    GroupChainsIff(events, RunOf, SameRun, edge);
    if x, y :| ChainRule(events, RunOf, SameRun, edge, x, y) {
      ConsecutiveIn(events, RunOf, x, y);
      assert ByRule(events, edge, x, y);
    }
    if edge.kind == SameRun {
      if x, y :| ByRule(events, edge, x, y) {
        assert ChainRule(events, RunOf, SameRun, edge, x, y);
      }
    }
  }

  /** buildCausalEdges makes exactly the edges its rules call for. */
  lemma {:induction false} EdgesIff(events: seq<Event>, edge: Edge)
    ensures edge in CausalEdges(events) <==> exists x, y :: ByRule(events, edge, x, y)
  {
    ParentPart(events, edge);
    NodePart(events, edge);
    RunPart(events, edge);
  }
}
