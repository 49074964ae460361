/** When the list that buildCausalEdges returns is sorted by the logical_time of the source, as its
    comment says it always is. */
module EdgeOrder {
  import opened Events
  import opened Causal
  import opened Ancestry
  import CausalRules

  // ----- the condition, on the events -----

  /** y is the next event after x of those with the name of x. */
  ghost predicate NextNamed(events: seq<Event>, nameOf: Naming, x: Event, y: Event) {
    && x in events && y in events && nameOf(x).Some? && nameOf(y) == nameOf(x) && x.time < y.time
    && forall z :: z in events && nameOf(z) == nameOf(x) ==> z.time <= x.time || y.time <= z.time
  }

  /** x has a next event of its name; within a run, one by another tool. */
  ghost predicate ChainSource(events: seq<Event>, nameOf: Naming, kind: EdgeKind, x: Event) {
    exists y :: NextNamed(events, nameOf, x, y) && (kind == SameRun ==> x.tool != y.tool)
  }

  /** x is a parent named by an event of the log. */
  ghost predicate ParentSource(events: seq<Event>, x: Event) {
    x in events && exists y :: y in events && Rule(events, Explicit, x, y)
  }

  /** The log mentions the name k before it first mentions l. */
  ghost predicate FirstBefore(events: seq<Event>, nameOf: Naming, k: string, l: string) {
    exists i :: 0 <= i < |events| && Introduces(events, nameOf, k, l, i)
  }

  ghost predicate Introduces(events: seq<Event>, nameOf: Naming, k: string, l: string, i: nat)
    requires i < |events|
  {
    nameOf(events[i]) == Some(k) && forall j :: 0 <= j <= i ==> nameOf(events[j]) != Some(l)
  }

  /** Parent times do not decrease along the log. */
  ghost predicate ParentsInOrder(events: seq<Event>) { ParentTimesInOrder(events, events) }

  ghost predicate ParentTimesInOrder(all: seq<Event>, events: seq<Event>) {
    forall i, j :: 0 <= i < j < |events| && HasParent(Ids(all), events[i]) && HasParent(Ids(all), events[j]) ==>
      TimeOf(all, events[i].parentId.value) <= TimeOf(all, events[j].parentId.value)
  }

  /** Groups do not overlap in source time: all sources of a name precede those of a name introduced later. */
  ghost predicate GroupsInOrder(events: seq<Event>, nameOf: Naming, kind: EdgeKind) {
    forall x, y :: ChainSource(events, nameOf, kind, x) && ChainSource(events, nameOf, kind, y) ==>
      FirstBefore(events, nameOf, nameOf(x).value, nameOf(y).value) ==> x.time <= y.time
  }

  ghost predicate ParentsBefore(events: seq<Event>, nameOf: Naming, kind: EdgeKind) {
    forall x, y :: ParentSource(events, x) && ChainSource(events, nameOf, kind, y) ==> x.time <= y.time
  }

  ghost predicate NodesBeforeRuns(events: seq<Event>) {
    forall x, y :: ChainSource(events, NodeOf, SameNode, x) && ChainSource(events, RunOf, SameRun, y) ==>
      x.time <= y.time
  }

  /** For nodes this says that x is not the last event about its node. */
  lemma {:induction false} NodeSourceIff(events: seq<Event>, x: Event)
    requires x in events && NodeOf(x).Some?
    ensures ChainSource(events, NodeOf, SameNode, x)
      <==> exists y :: y in events && NodeOf(y) == NodeOf(x) && x.time < y.time
  {
    if y :| y in events && NodeOf(y) == NodeOf(x) && x.time < y.time { var n := NextAfter(events, NodeOf, x, y); }
  }

  lemma {:induction false} NextAfter(events: seq<Event>, nameOf: Naming, x: Event, y: Event) returns (n: Event)
    requires x in events && y in events && nameOf(x).Some? && nameOf(y) == nameOf(x) && x.time < y.time
    ensures NextNamed(events, nameOf, x, n)
    decreases y.time - x.time
  {
    n := y;
    if !NextNamed(events, nameOf, x, y) {
      var z :| z in events && nameOf(z) == nameOf(x) && x.time < z.time < y.time;
      n := NextAfter(events, nameOf, x, z);
    }
  }

  // ----- edge lists in order -----

  ghost predicate InOrder(events: seq<Event>, edges: seq<Edge>) {
    forall i, j :: 0 <= i < j < |edges| ==> TimeOf(events, edges[i].from) <= TimeOf(events, edges[j].from)
  }

  ghost predicate AllBefore(events: seq<Event>, a: seq<Edge>, b: seq<Edge>) {
    forall x, y :: x in a && y in b ==> TimeOf(events, x.from) <= TimeOf(events, y.from)
  }

  lemma {:induction false} PartsInOrder(events: seq<Event>, a: seq<Edge>, b: seq<Edge>)
    requires InOrder(events, a + b)
    ensures InOrder(events, a) && InOrder(events, b) && AllBefore(events, a, b)
  {
    var s := a + b;
    assert forall i :: 0 <= i < |a| ==> s[i] == a[i];
    forall i, j | 0 <= i < j < |b| ensures TimeOf(events, b[i].from) <= TimeOf(events, b[j].from) {
      assert s[|a| + i] == b[i] && s[|a| + j] == b[j];
    }
    forall x, y | x in a && y in b ensures TimeOf(events, x.from) <= TimeOf(events, y.from) {
      var i :| 0 <= i < |a| && a[i] == x;
      var j :| 0 <= j < |b| && b[j] == y;
      assert s[i] == x && s[|a| + j] == y;
    }
  }

  lemma {:induction false} WholeInOrder(events: seq<Event>, a: seq<Edge>, b: seq<Edge>)
    requires InOrder(events, a) && InOrder(events, b) && AllBefore(events, a, b)
    ensures InOrder(events, a + b)
  {
    var s := a + b;
    forall i, j | 0 <= i < j < |s| ensures TimeOf(events, s[i].from) <= TimeOf(events, s[j].from) {
      if i >= |a| { assert s[i] == b[i - |a|] && s[j] == b[j - |a|]; }
      if i < |a| <= j { assert s[i] in a && s[j] == b[j - |a|] && s[j] in b; }
    }
  }

  lemma {:induction false} InOrderAppend(events: seq<Event>, a: seq<Edge>, b: seq<Edge>)
    ensures InOrder(events, a + b) <==> InOrder(events, a) && InOrder(events, b) && AllBefore(events, a, b)
  {
    if InOrder(events, a + b) { PartsInOrder(events, a, b); }
    if InOrder(events, a) && InOrder(events, b) && AllBefore(events, a, b) { WholeInOrder(events, a, b); }
  }

  lemma {:induction false} TimeIs(events: seq<Event>, e: Event)
    requires DistinctIds(events) && e in events
    ensures TimeOf(events, e.id) == e.time
  {
    ByIdIs(events);
  }

  // ----- parent edges -----

  /** The edge from the parent of the event, which has one. */
  predicate IsParentEdge(ids: set<string>, e: Event, edge: Edge) {
    HasParent(ids, e) && edge == Edge(e.parentId.value, e.id, Explicit)
  }

  lemma {:induction false} ParentEdgeFrom(ids: set<string>, events: seq<Event>, edge: Edge)
    ensures edge in ParentEdges(ids, events) <==>
      exists i :: 0 <= i < |events| && IsParentEdge(ids, events[i], edge)
  {
    if events != [] {
      var rest := events[1..];
      ParentEdgeFrom(ids, rest, edge);
      if i :| 0 <= i < |rest| && IsParentEdge(ids, rest[i], edge) { assert events[i + 1] == rest[i]; }
      if i :| 0 < i < |events| && IsParentEdge(ids, events[i], edge) { assert rest[i - 1] == events[i]; }
    }
  }

  lemma {:induction false} ParentEdgesInOrder(all: seq<Event>, events: seq<Event>)
    ensures InOrder(all, ParentEdges(Ids(all), events)) <==> ParentTimesInOrder(all, events)
  {
    if events != [] {
      var e, rest, ids := events[0], events[1..], Ids(all);
      var later := ParentEdges(ids, rest);
      ParentEdgesInOrder(all, rest);
      ParentTimesStep(all, e, rest);
      assert events == [e] + rest;
      if HasParent(ids, e) {
        var edge := Edge(e.parentId.value, e.id, Explicit);
        InOrderAppend(all, [edge], later);
        HeadBeforeIff(all, e, rest);
      }
    }
  }

  ghost predicate ParentBeforeRest(all: seq<Event>, e: Event, rest: seq<Event>)
    requires HasParent(Ids(all), e)
  {
    forall j :: 0 <= j < |rest| && HasParent(Ids(all), rest[j]) ==>
      TimeOf(all, e.parentId.value) <= TimeOf(all, rest[j].parentId.value)
  }

  lemma {:induction false} TimesOfTail(all: seq<Event>, e: Event, rest: seq<Event>)
    requires ParentTimesInOrder(all, [e] + rest)
    ensures ParentTimesInOrder(all, rest)
  {
    var events := [e] + rest;
    forall i, j | 0 <= i < j < |rest| && HasParent(Ids(all), rest[i]) && HasParent(Ids(all), rest[j])
      ensures TimeOf(all, rest[i].parentId.value) <= TimeOf(all, rest[j].parentId.value)
    {
      assert events[i + 1] == rest[i] && events[j + 1] == rest[j];
    }
  }

  lemma {:induction false} TimesOfHead(all: seq<Event>, e: Event, rest: seq<Event>)
    requires ParentTimesInOrder(all, [e] + rest) && HasParent(Ids(all), e)
    ensures ParentBeforeRest(all, e, rest)
  {
    var events := [e] + rest;
    forall j | 0 <= j < |rest| && HasParent(Ids(all), rest[j])
      ensures TimeOf(all, e.parentId.value) <= TimeOf(all, rest[j].parentId.value)
    {
      assert events[0] == e && events[j + 1] == rest[j];
    }
  }

  lemma {:induction false} TimesOfWhole(all: seq<Event>, e: Event, rest: seq<Event>)
    requires ParentTimesInOrder(all, rest) && (HasParent(Ids(all), e) ==> ParentBeforeRest(all, e, rest))
    ensures ParentTimesInOrder(all, [e] + rest)
  {
    var events := [e] + rest;
    forall i, j | 0 <= i < j < |events| && HasParent(Ids(all), events[i]) && HasParent(Ids(all), events[j])
      ensures TimeOf(all, events[i].parentId.value) <= TimeOf(all, events[j].parentId.value)
    {
      assert events[j] == rest[j - 1];
      if i > 0 { assert events[i] == rest[i - 1]; }
    }
  }

  lemma {:induction false} ParentTimesStep(all: seq<Event>, e: Event, rest: seq<Event>)
    ensures ParentTimesInOrder(all, [e] + rest)
      <==> ParentTimesInOrder(all, rest) && (HasParent(Ids(all), e) ==> ParentBeforeRest(all, e, rest))
  {
    if ParentTimesInOrder(all, [e] + rest) {
      TimesOfTail(all, e, rest);
      if HasParent(Ids(all), e) { TimesOfHead(all, e, rest); }
    }
    if ParentTimesInOrder(all, rest) && (HasParent(Ids(all), e) ==> ParentBeforeRest(all, e, rest)) {
      TimesOfWhole(all, e, rest);
    }
  }

  lemma {:induction false} HeadBeforeIff(all: seq<Event>, e: Event, rest: seq<Event>)
    requires HasParent(Ids(all), e)
    ensures AllBefore(all, [Edge(e.parentId.value, e.id, Explicit)], ParentEdges(Ids(all), rest))
      <==> ParentBeforeRest(all, e, rest)
  {
    var edge, later := Edge(e.parentId.value, e.id, Explicit), ParentEdges(Ids(all), rest);
    if AllBefore(all, [edge], later) {
      forall j | 0 <= j < |rest| && HasParent(Ids(all), rest[j])
        ensures TimeOf(all, e.parentId.value) <= TimeOf(all, rest[j].parentId.value)
      {
        var y := Edge(rest[j].parentId.value, rest[j].id, Explicit);
        assert IsParentEdge(Ids(all), rest[j], y);
        ParentEdgeFrom(Ids(all), rest, y);
        assert edge in [edge] && y in later;
      }
    }
    if ParentBeforeRest(all, e, rest) {
      forall x, y | x in [edge] && y in later ensures TimeOf(all, x.from) <= TimeOf(all, y.from) {
        ParentEdgeFrom(Ids(all), rest, y);
        var j :| 0 <= j < |rest| && IsParentEdge(Ids(all), rest[j], y);
      }
    }
  }

  // ----- chains -----

  lemma {:induction false} ChainFrom(s: seq<Event>, kind: EdgeKind, edge: Edge)
    requires edge in Chain(s, kind)
    ensures exists x :: x in s && edge.from == x.id
  {
    ChainIff(s, kind, edge);
  }

  lemma {:induction false} ChainInOrder(events: seq<Event>, s: seq<Event>, kind: EdgeKind)
    requires DistinctIds(events) && Sorted(s) && forall e :: e in s ==> e in events
    ensures InOrder(events, Chain(s, kind))
  {
    if |s| >= 2 {
      var rest := Chain(s[1..], kind);
      ChainInOrder(events, s[1..], kind);
      var head := Edge(s[0].id, s[1].id, kind);
      InOrderAppend(events, [head], rest);
      forall x, y | x in [head] && y in rest ensures TimeOf(events, x.from) <= TimeOf(events, y.from) {
        ChainFrom(s[1..], kind, y);
        var e :| e in s[1..] && y.from == e.id;
        var i :| 0 <= i < |s[1..]| && s[1..][i] == e;
        assert s[i + 1] == e && s[0] in events && e in events;
        TimeIs(events, s[0]);
        TimeIs(events, e);
      }
    }
  }

  lemma {:induction false} ChainsInOrder(events: seq<Event>, groups: seq<seq<Event>>, kind: EdgeKind)
    requires DistinctIds(events) && forall g, e :: g in groups && e in g ==> e in events
    ensures InOrder(events, Chains(groups, kind))
      <==> AllGroupsApart(events, groups, kind)
  {
    if groups != [] {
      var g, rest := groups[0], groups[1..];
      assert groups == [g] + rest;
      assert g in groups;
      SortSorts(g);
      ChainInOrder(events, SortByTime(g), kind);
      ChainsInOrder(events, rest, kind);
      InOrderAppend(events, Chain(SortByTime(g), kind), Chains(rest, kind));
      HeadApartIff(events, g, rest, kind);
      if AllGroupsApart(events, groups, kind) { SplitApart(events, g, rest, kind); }
      if ApartFromAll(events, g, rest, kind) && AllGroupsApart(events, rest, kind) { JoinApart(events, g, rest, kind); }
    }
  }

  /** All sources of one group's chain are before those of the other's. */
  ghost predicate ChainsApart(events: seq<Event>, g: seq<Event>, h: seq<Event>, kind: EdgeKind) {
    AllBefore(events, Chain(SortByTime(g), kind), Chain(SortByTime(h), kind))
  }

  lemma {:induction false} HeadApartIff(events: seq<Event>, g: seq<Event>, rest: seq<seq<Event>>, kind: EdgeKind)
    ensures AllBefore(events, Chain(SortByTime(g), kind), Chains(rest, kind))
      <==> ApartFromAll(events, g, rest, kind)
  {
    var chain := Chain(SortByTime(g), kind);
    if AllBefore(events, chain, Chains(rest, kind)) {
      forall j | 0 <= j < |rest| ensures ChainsApart(events, g, rest[j], kind) {
        forall x, y | x in chain && y in Chain(SortByTime(rest[j]), kind)
          ensures TimeOf(events, x.from) <= TimeOf(events, y.from)
        {
          ChainsIff(rest, kind, y);
          assert InChain(rest[j], kind, y);
        }
      }
    }
    if ApartFromAll(events, g, rest, kind) {
      forall x, y | x in chain && y in Chains(rest, kind) ensures TimeOf(events, x.from) <= TimeOf(events, y.from) {
        ChainsIff(rest, kind, y);
        var j :| 0 <= j < |rest| && InChain(rest[j], kind, y);
        assert ChainsApart(events, g, rest[j], kind);
      }
    }
  }

  ghost predicate AllGroupsApart(events: seq<Event>, groups: seq<seq<Event>>, kind: EdgeKind) {
    forall i, j :: 0 <= i < j < |groups| ==> ChainsApart(events, groups[i], groups[j], kind)
  }

  ghost predicate ApartFromAll(events: seq<Event>, g: seq<Event>, rest: seq<seq<Event>>, kind: EdgeKind) {
    forall j :: 0 <= j < |rest| ==> ChainsApart(events, g, rest[j], kind)
  }

  lemma {:induction false} SplitApart(events: seq<Event>, g: seq<Event>, rest: seq<seq<Event>>, kind: EdgeKind)
    requires AllGroupsApart(events, [g] + rest, kind)
    ensures ApartFromAll(events, g, rest, kind) && AllGroupsApart(events, rest, kind)
  {
    var all := [g] + rest;
    forall j | 0 <= j < |rest| ensures ChainsApart(events, g, rest[j], kind) {
      assert all[0] == g && all[j + 1] == rest[j];
    }
    forall i, j | 0 <= i < j < |rest| ensures ChainsApart(events, rest[i], rest[j], kind) {
      assert all[i + 1] == rest[i] && all[j + 1] == rest[j];
    }
  }

  lemma {:induction false} JoinApart(events: seq<Event>, g: seq<Event>, rest: seq<seq<Event>>, kind: EdgeKind)
    requires ApartFromAll(events, g, rest, kind) && AllGroupsApart(events, rest, kind)
    ensures AllGroupsApart(events, [g] + rest, kind)
  {
    var all := [g] + rest;
    forall i, j | 0 <= i < j < |all| ensures ChainsApart(events, all[i], all[j], kind) {
      assert all[j] == rest[j - 1];
      if i > 0 { assert all[i] == rest[i - 1]; }
    }
  }

  // ----- the sources of a group's chain -----

  /** The group of k, as the loop sorts it. */
  function Timeline(events: seq<Event>, nameOf: Naming, k: string): seq<Event> {
    SortByTime(Filter(events, InGroup(nameOf, k)))
  }

  lemma {:induction false} TimelineIs(events: seq<Event>, nameOf: Naming, k: string)
    requires DistinctTimes(events)
    ensures StrictlySorted(Timeline(events, nameOf, k))
    ensures forall e :: e in Timeline(events, nameOf, k) <==> e in events && nameOf(e) == Some(k)
  {
    var f := Filter(events, InGroup(nameOf, k));
    FilterDistinctTimes(events, InGroup(nameOf, k));
    SortStrict(f);
    SortSorts(f);
  }

  lemma {:induction false} NeighboursAreNext(events: seq<Event>, nameOf: Naming, k: string, i: nat)
    requires DistinctTimes(events) && i + 1 < |Timeline(events, nameOf, k)|
    ensures var s := Timeline(events, nameOf, k); NextNamed(events, nameOf, s[i], s[i + 1])
  {
    var s := Timeline(events, nameOf, k);
    TimelineIs(events, nameOf, k);
    assert s[i] in s && s[i + 1] in s;
    forall z | z in events && nameOf(z) == Some(k) ensures z.time <= s[i].time || s[i + 1].time <= z.time {
      assert z in s;
      var m :| 0 <= m < |s| && s[m] == z;
    }
  }

  lemma {:induction false} StrictlyOrdered(s: seq<Event>, i: nat, j: nat)
    requires StrictlySorted(s) && i < |s| && j < |s| && s[i].time < s[j].time
    ensures i < j && (i + 1 < j ==> s[i].time < s[i + 1].time < s[j].time)
  {
  }

  lemma {:induction false} NextAreNeighbours(events: seq<Event>, nameOf: Naming, k: string, x: Event, y: Event)
    returns (i: nat)
    requires DistinctTimes(events) && NextNamed(events, nameOf, x, y) && nameOf(x) == Some(k)
    ensures var s := Timeline(events, nameOf, k); i + 1 < |s| && s[i] == x && s[i + 1] == y
  {
    var s := Timeline(events, nameOf, k);
    TimelineIs(events, nameOf, k);
    assert x in s && y in s;
    i :| 0 <= i < |s| && s[i] == x;
    var j :| 0 <= j < |s| && s[j] == y;
    StrictlyOrdered(s, i, j);
    assert s[i + 1] in s;
  }

  lemma {:induction false} SourceOfEdge(events: seq<Event>, nameOf: Naming, k: string, kind: EdgeKind, edge: Edge)
    returns (x: Event)
    requires DistinctIds(events) && DistinctTimes(events) && edge in Chain(Timeline(events, nameOf, k), kind)
    ensures ChainSource(events, nameOf, kind, x) && nameOf(x) == Some(k)
    ensures x in events && TimeOf(events, edge.from) == x.time
  {
    var s := Timeline(events, nameOf, k);
    TimelineIs(events, nameOf, k);
    ChainIff(s, kind, edge);
    var i :| 0 <= i < |s| - 1 && edge == Edge(s[i].id, s[i + 1].id, kind)
             && (kind == SameRun ==> s[i].tool != s[i + 1].tool);
    x := s[i];
    assert x in s;
    NeighboursAreNext(events, nameOf, k, i);
    TimeIs(events, x);
  }

  lemma {:induction false} EdgeOfSource(events: seq<Event>, nameOf: Naming, k: string, kind: EdgeKind, x: Event)
    returns (edge: Edge)
    requires DistinctIds(events) && DistinctTimes(events)
    requires ChainSource(events, nameOf, kind, x) && nameOf(x) == Some(k)
    ensures edge in Chain(Timeline(events, nameOf, k), kind) && TimeOf(events, edge.from) == x.time
  {
    var y :| NextNamed(events, nameOf, x, y) && (kind == SameRun ==> x.tool != y.tool);
    var i := NextAreNeighbours(events, nameOf, k, x, y);
    edge := Edge(x.id, y.id, kind);
    ChainIff(Timeline(events, nameOf, k), kind, edge);
    TimeIs(events, x);
  }

  // ----- the order of the groups -----

  ghost predicate Introduced(groups: Groups, events: seq<Event>, nameOf: Naming) {
    forall a, b :: 0 <= a < b < |groups.order| ==> FirstBefore(events, nameOf, groups.order[a], groups.order[b])
  }

  lemma {:induction false} FirstBeforeMore(events: seq<Event>, e: Event, nameOf: Naming, k: string, l: string)
    requires FirstBefore(events, nameOf, k, l)
    ensures FirstBefore(events + [e], nameOf, k, l)
  {
    var i :| 0 <= i < |events| && Introduces(events, nameOf, k, l, i);
    assert forall j :: 0 <= j <= i ==> (events + [e])[j] == events[j];
    assert Introduces(events + [e], nameOf, k, l, i);
  }

  lemma {:induction false} NewNameLast(events: seq<Event>, e: Event, nameOf: Naming, k: string, l: string)
    requires exists x :: x in events && nameOf(x) == Some(k)
    requires forall x :: x in events ==> nameOf(x) != Some(l)
    ensures FirstBefore(events + [e], nameOf, k, l)
  {
    var x :| x in events && nameOf(x) == Some(k);
    var i :| 0 <= i < |events| && events[i] == x;
    assert forall j :: 0 <= j <= i ==> (events + [e])[j] == events[j];
    assert Introduces(events + [e], nameOf, k, l, i);
  }

  lemma {:induction false} IntroducedStep(groups: Groups, done: seq<Event>, e: Event, nameOf: Naming)
    requires Grouped(groups, done, nameOf) && Introduced(groups, done, nameOf)
    ensures Introduced(AddToGroup(groups, nameOf(e), e), done + [e], nameOf)
  {
    var g := AddToGroup(groups, nameOf(e), e);
    forall a, b | 0 <= a < b < |g.order| ensures FirstBefore(done + [e], nameOf, g.order[a], g.order[b]) {
      assert g.order[a] == groups.order[a] && groups.order[a] in groups.data;
      if b < |groups.order| {
        FirstBeforeMore(done, e, nameOf, g.order[a], g.order[b]);
      } else {
        NewNameLast(done, e, nameOf, g.order[a], g.order[b]);
      }
    }
  }

  lemma {:induction false} IntroducedFrom(groups: Groups, done: seq<Event>, events: seq<Event>, nameOf: Naming)
    requires Grouped(groups, done, nameOf) && Introduced(groups, done, nameOf)
    ensures Introduced(Group(groups, events, nameOf), done + events, nameOf)
    decreases |events|
  {
    if events == [] {
      assert done + events == done;
    } else {
      var e := events[0];
      GroupedStep(groups, done, e, nameOf);
      IntroducedStep(groups, done, e, nameOf);
      IntroducedFrom(AddToGroup(groups, nameOf(e), e), done + [e], events[1..], nameOf);
      assert done + [e] + events[1..] == done + events;
    }
  }

  /** The groups stand in the order in which the log first names them. */
  lemma {:induction false} GroupOrder(events: seq<Event>, nameOf: Naming)
    ensures Introduced(Group(NO_GROUPS, events, nameOf), events, nameOf)
  {
    IntroducedFrom(NO_GROUPS, [], events, nameOf);
    assert [] + events == events;
  }

  lemma {:induction false} FirstBeforeOneWay(events: seq<Event>, nameOf: Naming, k: string, l: string)
    requires FirstBefore(events, nameOf, k, l)
    ensures !FirstBefore(events, nameOf, l, k)
  {
    var i :| 0 <= i < |events| && Introduces(events, nameOf, k, l, i);
    assert forall j :: 0 <= j < |events| ==> !Introduces(events, nameOf, l, k, j);
  }

  // ----- a block of chains -----

  /** Every source of name k is before every source of name l. */
  ghost predicate NamesApart(events: seq<Event>, nameOf: Naming, kind: EdgeKind, k: string, l: string) {
    forall x, y :: ChainSource(events, nameOf, kind, x) && ChainSource(events, nameOf, kind, y) ==>
      nameOf(x) == Some(k) && nameOf(y) == Some(l) ==> x.time <= y.time
  }

  lemma {:induction false} ApartIff(events: seq<Event>, nameOf: Naming, kind: EdgeKind, k: string, l: string)
    requires DistinctIds(events) && DistinctTimes(events)
    ensures AllBefore(events, Chain(Timeline(events, nameOf, k), kind), Chain(Timeline(events, nameOf, l), kind))
      <==> NamesApart(events, nameOf, kind, k, l)
  {
    var a, b := Chain(Timeline(events, nameOf, k), kind), Chain(Timeline(events, nameOf, l), kind);
    if AllBefore(events, a, b) {
      forall x, y | ChainSource(events, nameOf, kind, x) && nameOf(x) == Some(k)
          && ChainSource(events, nameOf, kind, y) && nameOf(y) == Some(l)
        ensures x.time <= y.time
      {
        var d := EdgeOfSource(events, nameOf, k, kind, x);
        var e := EdgeOfSource(events, nameOf, l, kind, y);
      }
    }
    if NamesApart(events, nameOf, kind, k, l) {
      forall d, e | d in a && e in b ensures TimeOf(events, d.from) <= TimeOf(events, e.from) {
        var x := SourceOfEdge(events, nameOf, k, kind, d);
        var y := SourceOfEdge(events, nameOf, l, kind, e);
      }
    }
  }

  lemma {:induction false} NameIndex(groups: Groups, events: seq<Event>, nameOf: Naming, x: Event) returns (a: nat)
    requires Grouped(groups, events, nameOf) && x in events && nameOf(x).Some?
    ensures a < |groups.order| && groups.order[a] == nameOf(x).value
  {
    assert nameOf(x).value in groups.data;
    a :| 0 <= a < |groups.order| && groups.order[a] == nameOf(x).value;
  }

  ghost predicate AllApart(events: seq<Event>, nameOf: Naming, kind: EdgeKind, order: seq<string>) {
    forall i, j :: 0 <= i < j < |order| ==> NamesApart(events, nameOf, kind, order[i], order[j])
  }

  lemma {:induction false} OneApart(events: seq<Event>, nameOf: Naming, kind: EdgeKind, groups: Groups, x: Event,
                                    y: Event)
    requires Grouped(groups, events, nameOf) && Introduced(groups, events, nameOf)
    requires AllApart(events, nameOf, kind, groups.order)
    requires ChainSource(events, nameOf, kind, x) && ChainSource(events, nameOf, kind, y)
    requires FirstBefore(events, nameOf, nameOf(x).value, nameOf(y).value)
    ensures x.time <= y.time
  {
    var a := NameIndex(groups, events, nameOf, x);
    var b := NameIndex(groups, events, nameOf, y);
    FirstBeforeOneWay(events, nameOf, groups.order[a], groups.order[b]);
    assert a < b;
    assert NamesApart(events, nameOf, kind, groups.order[a], groups.order[b]);
  }

  lemma {:induction false} AllNamesApart(events: seq<Event>, nameOf: Naming, kind: EdgeKind, groups: Groups)
    requires Grouped(groups, events, nameOf) && Introduced(groups, events, nameOf)
    ensures AllApart(events, nameOf, kind, groups.order) <==> GroupsInOrder(events, nameOf, kind)
  {
    if AllApart(events, nameOf, kind, groups.order) {
      forall x, y | ChainSource(events, nameOf, kind, x) && ChainSource(events, nameOf, kind, y)
          && FirstBefore(events, nameOf, nameOf(x).value, nameOf(y).value)
        ensures x.time <= y.time
      {
        OneApart(events, nameOf, kind, groups, x, y);
      }
    }
    if GroupsInOrder(events, nameOf, kind) {
      forall i, j | 0 <= i < j < |groups.order|
        ensures NamesApart(events, nameOf, kind, groups.order[i], groups.order[j])
      {
        assert FirstBefore(events, nameOf, groups.order[i], groups.order[j]);
      }
    }
  }

  lemma {:induction false} GroupsApartIff(events: seq<Event>, nameOf: Naming, kind: EdgeKind, values: seq<seq<Event>>,
                                          order: seq<string>)
    requires DistinctIds(events) && DistinctTimes(events) && |values| == |order|
    requires forall i :: 0 <= i < |values| ==> values[i] == Filter(events, InGroup(nameOf, order[i]))
    ensures AllGroupsApart(events, values, kind) <==> AllApart(events, nameOf, kind, order)
  {
    forall i, j | 0 <= i < j < |values|
      ensures ChainsApart(events, values[i], values[j], kind) <==> NamesApart(events, nameOf, kind, order[i], order[j])
    {
      ApartIff(events, nameOf, kind, order[i], order[j]);
    }
  }

  lemma {:induction false} BlockInOrder(events: seq<Event>, nameOf: Naming, kind: EdgeKind, groups: Groups)
    requires DistinctIds(events) && DistinctTimes(events)
    requires groups == Group(NO_GROUPS, events, nameOf)
    ensures groups.Valid()
    ensures InOrder(events, Chains(groups.Values(), kind)) <==> GroupsInOrder(events, nameOf, kind)
  {
    GroupsAre(events, nameOf);
    GroupOrder(events, nameOf);
    var values, order := groups.Values(), groups.order;
    forall i | 0 <= i < |values| ensures values[i] == Filter(events, InGroup(nameOf, order[i])) {
      assert order[i] in groups.data;
    }
    ChainsInOrder(events, values, kind);
    GroupsApartIff(events, nameOf, kind, values, order);
    AllNamesApart(events, nameOf, kind, groups);
  }

  // ----- the sources of each block -----

  lemma {:induction false} BlockSources(events: seq<Event>, nameOf: Naming, kind: EdgeKind, groups: Groups, edge: Edge)
    returns (x: Event)
    requires DistinctIds(events) && DistinctTimes(events) && groups == Group(NO_GROUPS, events, nameOf)
    requires groups.Valid() && edge in Chains(groups.Values(), kind)
    ensures ChainSource(events, nameOf, kind, x) && TimeOf(events, edge.from) == x.time
  {
    GroupsAre(events, nameOf);
    ChainsIff(groups.Values(), kind, edge);
    var i :| 0 <= i < |groups.order| && InChain(groups.Values()[i], kind, edge);
    assert groups.order[i] in groups.data;
    x := SourceOfEdge(events, nameOf, groups.order[i], kind, edge);
  }

  lemma {:induction false} BlockEdge(events: seq<Event>, nameOf: Naming, kind: EdgeKind, groups: Groups, x: Event)
    returns (edge: Edge)
    requires DistinctIds(events) && DistinctTimes(events) && groups == Group(NO_GROUPS, events, nameOf)
    requires groups.Valid() && ChainSource(events, nameOf, kind, x)
    ensures edge in Chains(groups.Values(), kind) && TimeOf(events, edge.from) == x.time
  {
    GroupsAre(events, nameOf);
    var a := NameIndex(groups, events, nameOf, x);
    edge := EdgeOfSource(events, nameOf, groups.order[a], kind, x);
    assert groups.order[a] in groups.data;
    assert InChain(groups.Values()[a], kind, edge);
    ChainsIff(groups.Values(), kind, edge);
  }

  lemma {:induction false} ParentEdgeSource(events: seq<Event>, edge: Edge) returns (x: Event)
    requires DistinctIds(events) && edge in ParentEdges(Ids(events), events)
    ensures ParentSource(events, x) && TimeOf(events, edge.from) == x.time
  {
    ParentPart(events, edge);
    var p, y :| ByRule(events, edge, p, y);
    x := p;
    TimeIs(events, x);
  }

  lemma {:induction false} ParentSourceEdge(events: seq<Event>, x: Event) returns (edge: Edge)
    requires DistinctIds(events) && ParentSource(events, x)
    ensures edge in ParentEdges(Ids(events), events) && TimeOf(events, edge.from) == x.time
  {
    var y :| y in events && Rule(events, Explicit, x, y);
    edge := Edge(x.id, y.id, Explicit);
    assert ByRule(events, edge, x, y);
    ParentPart(events, edge);
    TimeIs(events, x);
  }

  lemma {:induction false} ParentsBeforeIff(events: seq<Event>, nameOf: Naming, kind: EdgeKind, groups: Groups)
    requires DistinctIds(events) && DistinctTimes(events)
    requires groups == Group(NO_GROUPS, events, nameOf) && groups.Valid()
    ensures AllBefore(events, ParentEdges(Ids(events), events), Chains(groups.Values(), kind))
      <==> ParentsBefore(events, nameOf, kind)
  {
    var parents, chains := ParentEdges(Ids(events), events), Chains(groups.Values(), kind);
    if AllBefore(events, parents, chains) {
      forall x, y | ParentSource(events, x) && ChainSource(events, nameOf, kind, y) ensures x.time <= y.time {
        var d := ParentSourceEdge(events, x);
        var e := BlockEdge(events, nameOf, kind, groups, y);
      }
    }
    if ParentsBefore(events, nameOf, kind) {
      forall d, e | d in parents && e in chains ensures TimeOf(events, d.from) <= TimeOf(events, e.from) {
        var x := ParentEdgeSource(events, d);
        var y := BlockSources(events, nameOf, kind, groups, e);
      }
    }
  }

  lemma {:induction false} NodesBeforeRunsIff(events: seq<Event>, nodes: Groups, runs: Groups)
    requires DistinctIds(events) && DistinctTimes(events)
    requires nodes == NodeGroups(events) && nodes.Valid() && runs == RunGroups(events) && runs.Valid()
    ensures AllBefore(events, Chains(nodes.Values(), SameNode), Chains(runs.Values(), SameRun))
      <==> NodesBeforeRuns(events)
  {
    var a, b := Chains(nodes.Values(), SameNode), Chains(runs.Values(), SameRun);
    if AllBefore(events, a, b) {
      forall x, y | ChainSource(events, NodeOf, SameNode, x) && ChainSource(events, RunOf, SameRun, y)
        ensures x.time <= y.time
      {
        var d := BlockEdge(events, NodeOf, SameNode, nodes, x);
        var e := BlockEdge(events, RunOf, SameRun, runs, y);
      }
    }
    if NodesBeforeRuns(events) {
      forall d, e | d in a && e in b ensures TimeOf(events, d.from) <= TimeOf(events, e.from) {
        var x := BlockSources(events, NodeOf, SameNode, nodes, d);
        var y := BlockSources(events, RunOf, SameRun, runs, e);
      }
    }
  }

  // ----- the exact condition -----

  lemma {:induction false} ThreeBlocks(events: seq<Event>, a: seq<Edge>, b: seq<Edge>, c: seq<Edge>)
    ensures InOrder(events, a + b + c) <==>
      && InOrder(events, a) && InOrder(events, b) && InOrder(events, c)
      && AllBefore(events, a, b) && AllBefore(events, a, c) && AllBefore(events, b, c)
  {
    InOrderAppend(events, a, b);
    InOrderAppend(events, a + b, c);
    assert AllBefore(events, a + b, c) <==> AllBefore(events, a, c) && AllBefore(events, b, c) by {
      assert forall x :: x in a + b <==> x in a || x in b;
    }
  }

  /** The list is sorted by source time exactly when the parents of the log come in time order, neither
      nodes nor runs overlap in source time, and no source of a later block is earlier than one of an
      earlier block. */
  lemma {:induction false} SortedBySourceIff(events: seq<Event>)
    requires DistinctIds(events) && DistinctTimes(events)
    ensures CausalRules.SortedBySource(events) <==>
      && ParentsInOrder(events)
      && GroupsInOrder(events, NodeOf, SameNode)
      && GroupsInOrder(events, RunOf, SameRun)
      && ParentsBefore(events, NodeOf, SameNode)
      && ParentsBefore(events, RunOf, SameRun)
      && NodesBeforeRuns(events)
  {
    var nodes, runs := NodeGroups(events), RunGroups(events);
    BlockInOrder(events, NodeOf, SameNode, nodes);
    BlockInOrder(events, RunOf, SameRun, runs);
    ParentEdgesInOrder(events, events);
    ParentsBeforeIff(events, NodeOf, SameNode, nodes);
    ParentsBeforeIff(events, RunOf, SameRun, runs);
    NodesBeforeRunsIff(events, nodes, runs);
    ThreeBlocks(events, ParentEdges(Ids(events), events), Chains(nodes.Values(), SameNode),
                Chains(runs.Values(), SameRun));
    assert CausalRules.SortedBySource(events) <==> InOrder(events, CausalEdges(events));
  }
}
