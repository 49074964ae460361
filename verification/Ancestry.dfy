/** getAncestors and getDescendants: which events a causal walk returns, and in which order. */
module Ancestry {
  import opened Text
  import opened Events
  import opened Walk
  import opened Causal

  // ----- the two walks -----

  function ById(events: seq<Event>): map<string, Event> {
    if events == [] then map[] else ById(events[..|events| - 1])[events[|events| - 1].id := events[|events| - 1]]
  }

  function AddNeighbour(g: Graph, id: string, n: string): Graph { g[id := Next(g, id) + [n]] }

  /** child -> parents when `back` holds, parent -> children otherwise. */
  function Adjacency(g: Graph, edges: seq<Edge>, back: bool): Graph
    decreases |edges|
  {
    if edges == [] then g
    else
      var e := edges[0];
      Adjacency(if back then AddNeighbour(g, e.to, e.from) else AddNeighbour(g, e.from, e.to), edges[1..], back)
  }

  function Ends(edges: seq<Edge>): set<string> {
    (set e | e in edges :: e.from) + (set e | e in edges :: e.to)
  }

  /** The events among the finished ids, in that order. */
  function Collect(byId: map<string, Event>, order: seq<string>): seq<Event> {
    if order == [] then []
    else
      var rest, id := Collect(byId, order[..|order| - 1]), order[|order| - 1];
      if id in byId then rest + [byId[id]] else rest
  }

  ghost function Walked(events: seq<Event>, edges: seq<Edge>, start: string, back: bool): seq<Event> {
    AdjacencyWithin(edges, back);
    Collect(ById(events), Order(Adjacency(map[], edges, back), Ends(edges) + {start}, start))
  }

  ghost function Ancestors(events: seq<Event>, edges: seq<Edge>, id: string): seq<Event> {
    Walked(events, edges, id, true)
  }

  ghost function Descendants(events: seq<Event>, edges: seq<Edge>, id: string): seq<Event> {
    Walked(events, edges, id, false)
  }

  /** The closure `walk` with the variables it captures. */
  class Walker {
    const g: Graph
    const byId: map<string, Event>
    var visited: set<string>
    var result: seq<Event>
    ghost var order: seq<string>

    constructor (g: Graph, byId: map<string, Event>)
      ensures this.g == g && this.byId == byId
      ensures Valid() && Progress() == State({}, [])
    {
      this.g, this.byId := g, byId;
      visited, result, order := {}, [], [];
    }

    ghost predicate Valid() reads this { result == Collect(byId, order) }

    ghost function Progress(): State reads this { State(visited, order) }

    method Walk(id: string, ghost all: set<string>)
      requires Valid() && Within(g, all) && id in all
      modifies this
      ensures Valid() && Progress() == Visit(g, all, id, old(Progress()))
      decreases all - visited
    {
      if id in visited { return; }
      visited := visited + {id};
      ghost var entered := Progress();
      var ids := Next(g, id);
      for i := 0 to |ids|
        invariant Valid() && entered.visited <= visited
        invariant VisitAll(g, all, ids[i..], Progress()) == VisitAll(g, all, ids, entered)
      {
        assert ids[i..][0] == ids[i] && ids[i..][1..] == ids[i + 1..];
        Walk(ids[i], all);
      }
      assert order + [id] != [] && (order + [id])[..|order|] == order;
      if id in byId { result := result + [byId[id]]; }
      order := order + [id];
    }
  }

  method IndexById(events: seq<Event>) returns (byId: map<string, Event>)
    ensures byId == ById(events)
  {
    byId := map[];
    for i := 0 to |events|
      invariant byId == ById(events[..i])
    {
      assert events[..i + 1][..i] == events[..i];
      byId := byId[events[i].id := events[i]];
    }
    assert events[..|events|] == events;
  }

  method BuildAdjacency(edges: seq<Edge>, back: bool) returns (g: Graph)
    ensures g == Adjacency(map[], edges, back)
  {
    g := map[];
    for i := 0 to |edges|
      invariant Adjacency(g, edges[i..], back) == Adjacency(map[], edges, back)
    {
      assert edges[i..][0] == edges[i] && edges[i..][1..] == edges[i + 1..];
      var e := edges[i];
      var id, n := if back then e.to else e.from, if back then e.from else e.to;
      var arr := if id in g then g[id] else [];
      arr := arr + [n];
      g := g[id := arr];
    }
  }

  method GetAncestors(events: seq<Event>, edges: seq<Edge>, id: string) returns (r: seq<Event>)
    ensures r == Ancestors(events, edges, id)
  {
    var byId := IndexById(events);
    var parents := BuildAdjacency(edges, true);
    AdjacencyWithin(edges, true);
    var w := new Walker(parents, byId);
    w.Walk(id, Ends(edges) + {id});
    r := w.result;
  }

  method GetDescendants(events: seq<Event>, edges: seq<Edge>, id: string) returns (r: seq<Event>)
    ensures r == Descendants(events, edges, id)
  {
    var byId := IndexById(events);
    var children := BuildAdjacency(edges, false);
    AdjacencyWithin(edges, false);
    var w := new Walker(children, byId);
    w.Walk(id, Ends(edges) + {id});
    r := w.result;
  }

  // ----- adjacency -----

  ghost predicate HasEdge(edges: seq<Edge>, a: string, b: string) {
    exists e :: e in edges && e.from == a && e.to == b
  }

  lemma {:induction false} AdjacencyFrom(g: Graph, edges: seq<Edge>, back: bool, x: string, n: string)
    ensures n in Next(Adjacency(g, edges, back), x) <==>
      n in Next(g, x) || if back then HasEdge(edges, n, x) else HasEdge(edges, x, n)
    decreases |edges|
  {
    if edges != [] {
      var e := edges[0];
      assert edges == [e] + edges[1..];
      var g' := if back then AddNeighbour(g, e.to, e.from) else AddNeighbour(g, e.from, e.to);
      AdjacencyFrom(g', edges[1..], back, x, n);
    }
  }

  lemma {:induction false} AdjacencyIff(edges: seq<Edge>, back: bool, x: string, n: string)
    ensures n in Next(Adjacency(map[], edges, back), x) <==>
      if back then HasEdge(edges, n, x) else HasEdge(edges, x, n)
  {
    AdjacencyFrom(map[], edges, back, x, n);
  }

  lemma {:induction false} AdjacencyWithin(edges: seq<Edge>, back: bool)
    ensures forall more: set<string> :: Within(Adjacency(map[], edges, back), Ends(edges) + more)
  {
    forall x, n | n in Next(Adjacency(map[], edges, back), x) ensures n in Ends(edges) {
      AdjacencyIff(edges, back, x, n);
    }
  }

  // ----- causes -----

  ghost predicate CausalPath(edges: seq<Edge>, p: seq<string>) {
    forall i :: 0 <= i < |p| - 1 ==> HasEdge(edges, p[i], p[i + 1])
  }

  ghost predicate PathFromTo(edges: seq<Edge>, a: string, b: string, p: seq<string>) {
    p != [] && p[0] == a && p[|p| - 1] == b && CausalPath(edges, p)
  }

  /** b follows from a along zero or more edges. */
  ghost predicate Causes(edges: seq<Edge>, a: string, b: string) {
    exists p :: PathFromTo(edges, a, b, p)
  }

  function Reverse(p: seq<string>): (r: seq<string>)
    ensures |r| == |p| && forall i :: 0 <= i < |p| ==> r[i] == p[|p| - 1 - i]
  {
    seq(|p|, i requires 0 <= i < |p| => p[|p| - 1 - i])
  }

  lemma {:induction false} ForwardReach(edges: seq<Edge>, a: string, b: string)
    ensures Reaches(Adjacency(map[], edges, false), a, b) <==> Causes(edges, a, b)
  {
    var g := Adjacency(map[], edges, false);
    forall p ensures PathBetween(g, a, b, p) <==> PathFromTo(edges, a, b, p) {
      forall i | 0 <= i < |p| - 1 ensures p[i + 1] in Next(g, p[i]) <==> HasEdge(edges, p[i], p[i + 1]) {
        AdjacencyIff(edges, false, p[i], p[i + 1]);
      }
    }
  }

  lemma {:induction false} BackwardReach(edges: seq<Edge>, a: string, b: string)
    ensures Reaches(Adjacency(map[], edges, true), b, a) <==> Causes(edges, a, b)
  {
    var g := Adjacency(map[], edges, true);
    if Reaches(g, b, a) {
      var p :| PathBetween(g, b, a, p);
      var r := Reverse(p);
      forall i | 0 <= i < |r| - 1 ensures HasEdge(edges, r[i], r[i + 1]) {
        var j := |p| - 2 - i;
        assert r[i] == p[j + 1] && r[i + 1] == p[j];
        AdjacencyIff(edges, true, p[j], p[j + 1]);
      }
      assert PathFromTo(edges, a, b, r);
    }
    if Causes(edges, a, b) {
      var p :| PathFromTo(edges, a, b, p);
      var r := Reverse(p);
      forall i | 0 <= i < |r| - 1 ensures r[i + 1] in Next(g, r[i]) {
        var j := |p| - 2 - i;
        assert r[i] == p[j + 1] && r[i + 1] == p[j];
        AdjacencyIff(edges, true, p[j + 1], p[j]);
      }
      assert PathBetween(g, b, a, r);
    }
  }

  // ----- which events a walk returns -----

  ghost predicate DistinctIds(events: seq<Event>) {
    forall i, j :: 0 <= i < j < |events| ==> events[i].id != events[j].id
  }

  lemma {:induction false} ByIdIs(events: seq<Event>)
    ensures forall id :: id in ById(events) <==> id in Ids(events)
    ensures forall id :: id in ById(events) ==> ById(events)[id] in events && ById(events)[id].id == id
    ensures DistinctIds(events) ==> forall e :: e in events ==> e.id in ById(events) && ById(events)[e.id] == e
  {
    if events != [] {
      var init, last := events[..|events| - 1], events[|events| - 1];
      assert events == init + [last];
      ByIdIs(init);
    }
  }

  lemma {:induction false} CollectIs(byId: map<string, Event>, order: seq<string>)
    ensures forall e :: e in Collect(byId, order) <==> exists id :: id in order && id in byId && byId[id] == e
  {
    if order != [] {
      var init, last := order[..|order| - 1], order[|order| - 1];
      assert order == init + [last];
      CollectIs(byId, init);
      if last in byId { assert last in order; }
    }
  }

  /** The i-th collected event comes from a place in the order; what was collected before it comes
      from the ids before that place. */
  lemma {:induction false} CollectPlace(byId: map<string, Event>, order: seq<string>, i: nat) returns (k: nat)
    requires i < |Collect(byId, order)|
    ensures k < |order| && order[k] in byId && Collect(byId, order)[i] == byId[order[k]]
    ensures Collect(byId, order)[..i] == Collect(byId, order[..k])
  {
    var init, last := order[..|order| - 1], order[|order| - 1];
    var rest := Collect(byId, init);
    if i < |rest| {
      k := CollectPlace(byId, init, i);
      assert init[..k] == order[..k];
      assert Collect(byId, order)[..i] == rest[..i];
    } else {
      k := |order| - 1;
      assert Collect(byId, order)[..i] == rest;
    }
  }

  lemma {:induction false} CollectDistinct(byId: map<string, Event>, order: seq<string>)
    requires Distinct(order) && forall id :: id in byId ==> byId[id].id == id
    ensures DistinctIds(Collect(byId, order))
  {
    if order != [] {
      var init, last := order[..|order| - 1], order[|order| - 1];
      CollectDistinct(byId, init);
      CollectIs(byId, init);
      var rest := Collect(byId, init);
      forall i | 0 <= i < |rest| ensures rest[i].id != last {
        assert rest[i] in rest;
      }
    }
  }

  ghost predicate Related(edges: seq<Edge>, start: string, id: string, back: bool) {
    if back then Causes(edges, id, start) else Causes(edges, start, id)
  }

  lemma {:induction false} WalkedExact(events: seq<Event>, edges: seq<Edge>, start: string, back: bool)
    requires DistinctIds(events)
    ensures forall e :: e in Walked(events, edges, start, back) <==> e in events && Related(edges, start, e.id, back)
    ensures DistinctIds(Walked(events, edges, start, back))
  {
    var g, all := Adjacency(map[], edges, back), Ends(edges) + {start};
    var byId := ById(events);
    AdjacencyWithin(edges, back);
    assert Within(g, all);
    WalkExact(g, all, start);
    var order := Order(g, all, start);
    forall id ensures id in order <==> Related(edges, start, id, back) {
      if back { BackwardReach(edges, id, start); } else { ForwardReach(edges, start, id); }
    }
    ByIdIs(events);
    CollectIs(byId, order);
    CollectDistinct(byId, order);
  }

  /** For any edge list, cyclic ones included, getAncestors returns exactly the events from which
      the given event follows, each once. */
  lemma {:induction false} AncestorsExact(events: seq<Event>, edges: seq<Edge>, id: string)
    requires DistinctIds(events)
    ensures forall e :: e in Ancestors(events, edges, id) <==> e in events && Causes(edges, e.id, id)
    ensures DistinctIds(Ancestors(events, edges, id))
  {
    WalkedExact(events, edges, id, true);
  }

  lemma {:induction false} DescendantsExact(events: seq<Event>, edges: seq<Edge>, id: string)
    requires DistinctIds(events)
    ensures forall e :: e in Descendants(events, edges, id) <==> e in events && Causes(edges, id, e.id)
    ensures DistinctIds(Descendants(events, edges, id))
  {
    WalkedExact(events, edges, id, false);
  }

  /** The two walks are dual. */
  lemma {:induction false} AncestorIffDescendant(events: seq<Event>, edges: seq<Edge>, a: Event, b: Event)
    requires DistinctIds(events) && a in events && b in events
    ensures a in Ancestors(events, edges, b.id) <==> b in Descendants(events, edges, a.id)
  {
    AncestorsExact(events, edges, b.id);
    DescendantsExact(events, edges, a.id);
  }

  // ----- logs written by the ledger -----

  /** Ids and logical times are distinct, and a parent that is in the log is earlier. */
  ghost predicate CausalLog(events: seq<Event>) {
    && DistinctIds(events)
    && DistinctTimes(events)
    && forall x, y :: x in events && y in events && y.parentId == Some(x.id) ==> x.time < y.time
  }

  ghost function TimeOf(events: seq<Event>, id: string): int {
    if id in ById(events) then ById(events)[id].time else 0
  }

  /** Every causal edge joins two events of the log and goes forward in logical time. */
  lemma {:induction false} EdgesGoForward(events: seq<Event>, edge: Edge)
    requires CausalLog(events) && edge in CausalEdges(events)
    ensures edge.from in Ids(events) && edge.to in Ids(events)
    ensures TimeOf(events, edge.from) < TimeOf(events, edge.to)
  {
    EdgesIff(events, edge);
    var x, y :| ByRule(events, edge, x, y);
    ByIdIs(events);
    match edge.kind
    case Explicit =>
    case SameNode => ConsecutiveIn(events, NodeOf, x, y);
    case SameRun => ConsecutiveIn(events, RunOf, x, y);
  }

  lemma {:induction false} PathsGoForward(events: seq<Event>, p: seq<string>)
    requires CausalLog(events) && |p| > 1 && CausalPath(CausalEdges(events), p)
    ensures TimeOf(events, p[0]) < TimeOf(events, p[|p| - 1])
  {
    assert HasEdge(CausalEdges(events), p[0], p[0 + 1]);
    var e :| e in CausalEdges(events) && e.from == p[0] && e.to == p[1];
    EdgesGoForward(events, e);
    if |p| > 2 {
      var q := p[1..];
      forall i | 0 <= i < |q| - 1 ensures HasEdge(CausalEdges(events), q[i], q[i + 1]) {
        assert HasEdge(CausalEdges(events), p[i + 1], p[i + 1 + 1]);
      }
      PathsGoForward(events, q);
    }
  }

  /** So the causal graph of a ledger log has no cycle. */
  lemma {:induction false} LogIsAcyclic(events: seq<Event>, p: seq<string>)
    requires CausalLog(events) && |p| > 1 && CausalPath(CausalEdges(events), p)
    ensures p[0] != p[|p| - 1]
  {
    PathsGoForward(events, p);
  }

  ghost predicate DirectCausesBefore(edges: seq<Edge>, r: seq<Event>, i: int)
    requires 0 <= i < |r|
  {
    forall edge :: edge in edges && edge.to == r[i].id ==> exists c :: c in r[..i] && c.id == edge.from
  }

  lemma {:induction false} AncestorsDirect(events: seq<Event>, id: string, i: nat)
    requires CausalLog(events)
    requires i < |Ancestors(events, CausalEdges(events), id)|
    ensures DirectCausesBefore(CausalEdges(events), Ancestors(events, CausalEdges(events), id), i)
  {
    var edges := CausalEdges(events);
    var g, all := Adjacency(map[], edges, true), Ends(edges) + {id};
    var rank := (x: string) => TimeOf(events, x);
    AdjacencyWithin(edges, true);
    forall x, n | n in Next(g, x) ensures rank(n) < rank(x) {
      AdjacencyIff(edges, true, x, n);
      var e :| e in edges && e.from == n && e.to == x;
      EdgesGoForward(events, e);
    }
    WalkTopological(g, all, id, rank);
    var order, byId := Order(g, all, id), ById(events);
    var r := Collect(byId, order);
    var k := CollectPlace(byId, order, i);
    ByIdIs(events);
    forall edge | edge in edges && edge.to == r[i].id ensures exists c :: c in r[..i] && c.id == edge.from {
      AdjacencyIff(edges, true, edge.to, edge.from);
      assert NextBefore(g, order, k);
      EdgesGoForward(events, edge);
      CollectIs(byId, order[..k]);
      assert byId[edge.from] in r[..i];
    }
  }

  /** getAncestors over the causal edges of a ledger log: each event comes after all of its causes. */
  lemma {:induction false} AncestorsInCausalOrder(events: seq<Event>, id: string, i: nat, p: seq<string>)
    requires CausalLog(events)
    requires i < |Ancestors(events, CausalEdges(events), id)|
    requires |p| > 1 && CausalPath(CausalEdges(events), p)
    requires p[|p| - 1] == Ancestors(events, CausalEdges(events), id)[i].id
    ensures exists c :: c in Ancestors(events, CausalEdges(events), id)[..i] && c.id == p[0]
    decreases |p|
  {
    var edges := CausalEdges(events);
    var r := Ancestors(events, edges, id);
    var q := p[..|p| - 1];
    AncestorsDirect(events, id, i);
    PathInit(edges, p);
    var edge :| edge in edges && edge.from == q[|q| - 1] && edge.to == p[|p| - 1];
    var c :| c in r[..i] && c.id == edge.from;
    if |q| > 1 {
      var j :| 0 <= j < i && r[j] == c;
      AncestorsInCausalOrder(events, id, j, q);
      var d :| d in r[..j] && d.id == q[0];
      assert d in r[..i];
    }
  }

  lemma {:induction false} PathInit(edges: seq<Edge>, p: seq<string>)
    requires |p| > 1 && CausalPath(edges, p)
    ensures CausalPath(edges, p[..|p| - 1]) && HasEdge(edges, p[..|p| - 1][|p| - 2], p[|p| - 1])
  {
    assert HasEdge(edges, p[|p| - 2], p[|p| - 2 + 1]);
    var q := p[..|p| - 1];
    forall m | 0 <= m < |q| - 1 ensures HasEdge(edges, q[m], q[m + 1]) {
      assert HasEdge(edges, p[m], p[m + 1]);
    }
  }
}
