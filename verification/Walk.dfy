/** The depth-first walk shared by getAncestors and getDescendants: mark a node as visited, walk
    its neighbours in order, then push the node. */
module Walk {
  import opened Text

  /** Adjacency lists, in insertion order. */
  type Graph = map<string, seq<string>>

  function Next(g: Graph, id: string): seq<string> {
    if id in g then g[id] else []
  }

  /** `order` holds the ids in the order their walks finished. */
  datatype State = State(visited: set<string>, order: seq<string>)

  ghost predicate Within(g: Graph, ids: set<string>) {
    forall id, n :: n in Next(g, id) ==> n in ids
  }

  ghost function Visit(g: Graph, all: set<string>, id: string, st: State): (r: State)
    requires Within(g, all) && id in all
    ensures st.visited <= r.visited
    decreases all - st.visited, 0
  {
    if id in st.visited then st
    else
      var r := VisitAll(g, all, Next(g, id), State(st.visited + {id}, st.order));
      State(r.visited, r.order + [id])
  }

  ghost function VisitAll(g: Graph, all: set<string>, ids: seq<string>, st: State): (r: State)
    requires Within(g, all) && forall id :: id in ids ==> id in all
    ensures st.visited <= r.visited
    decreases all - st.visited, 1 + |ids|
  {
    if ids == [] then st
    else VisitAll(g, all, ids[1..], Visit(g, all, ids[0], st))
  }

  // ----- reachability -----

  ghost predicate IsPath(g: Graph, p: seq<string>) {
    forall i :: 0 <= i < |p| - 1 ==> p[i + 1] in Next(g, p[i])
  }

  ghost predicate PathBetween(g: Graph, a: string, b: string, p: seq<string>) {
    p != [] && p[0] == a && p[|p| - 1] == b && IsPath(g, p)
  }

  ghost predicate Reaches(g: Graph, a: string, b: string) {
    exists p :: PathBetween(g, a, b, p)
  }

  lemma {:induction false} ReachesSelf(g: Graph, a: string)
    ensures Reaches(g, a, a)
  {
    assert PathBetween(g, a, a, [a]);
  }

  lemma {:induction false} ReachesStep(g: Graph, a: string, n: string, b: string)
    requires n in Next(g, a) && Reaches(g, n, b)
    ensures Reaches(g, a, b)
  {
    var p :| PathBetween(g, n, b, p);
    assert PathBetween(g, a, b, [a] + p);
  }

  lemma {:induction false} ClosedContainsPath(g: Graph, closed: set<string>, p: seq<string>)
    requires p != [] && IsPath(g, p) && p[0] in closed
    requires forall x, n :: x in closed && n in Next(g, x) ==> n in closed
    ensures p[|p| - 1] in closed
  {
    if |p| > 1 {
      assert p[0 + 1] in Next(g, p[0]);
      ClosedContainsPath(g, closed, p[1..]);
    }
  }

  // ----- what one walk adds -----

  /** From st to r the ids of ext were finished: each newly visited, once, with its neighbours. */
  ghost predicate Grown(g: Graph, st: State, r: State, ext: seq<string>) {
    && r.order == st.order + ext
    && Distinct(ext)
    && (forall x :: x in r.visited <==> x in st.visited || x in ext)
    && (forall x :: x in ext ==> x !in st.visited)
    && (forall x, n :: x in ext && n in Next(g, x) ==> n in r.visited)
  }

  lemma {:induction false} GrownTwice(g: Graph, a: State, b: State, c: State, e1: seq<string>, e2: seq<string>)
    requires Grown(g, a, b, e1) && Grown(g, b, c, e2)
    ensures Grown(g, a, c, e1 + e2)
  {
    var e := e1 + e2;
    forall i, j | 0 <= i < j < |e| ensures e[i] != e[j] {
      if i < |e1| <= j { assert e[i] in e1 && e[j] in e2; }
    }
  }

  lemma {:induction false} GrownPush(g: Graph, st: State, r: State, id: string, ext: seq<string>)
    requires id !in st.visited && Grown(g, State(st.visited + {id}, st.order), r, ext)
    requires forall n :: n in Next(g, id) ==> n in r.visited
    ensures Grown(g, st, State(r.visited, r.order + [id]), ext + [id])
  {
    assert r.order + [id] == st.order + (ext + [id]);
  }

  lemma {:induction false} VisitGrows(g: Graph, all: set<string>, id: string, st: State) returns (ext: seq<string>)
    requires Within(g, all) && id in all
    ensures Grown(g, st, Visit(g, all, id, st), ext)
    ensures id in Visit(g, all, id, st).visited
    ensures forall x :: x in ext ==> Reaches(g, id, x)
    decreases all - st.visited, 0
  {
    if id in st.visited {
      ext := [];
    } else {
      var st' := State(st.visited + {id}, st.order);
      ext := VisitAllGrows(g, all, Next(g, id), st');
      forall x | x in ext ensures Reaches(g, id, x) {
        var n :| n in Next(g, id) && Reaches(g, n, x);
        ReachesStep(g, id, n, x);
      }
      ReachesSelf(g, id);
      GrownPush(g, st, VisitAll(g, all, Next(g, id), st'), id, ext);
      ext := ext + [id];
    }
  }

  lemma {:induction false} VisitAllGrows(g: Graph, all: set<string>, ids: seq<string>, st: State)
    returns (ext: seq<string>)
    requires Within(g, all) && forall id :: id in ids ==> id in all
    ensures Grown(g, st, VisitAll(g, all, ids, st), ext)
    ensures forall id :: id in ids ==> id in VisitAll(g, all, ids, st).visited
    ensures forall x :: x in ext ==> exists id :: id in ids && Reaches(g, id, x)
    decreases all - st.visited, 1 + |ids|
  {
    if ids == [] {
      ext := [];
    } else {
      assert ids == [ids[0]] + ids[1..];
      var mid := Visit(g, all, ids[0], st);
      var e1 := VisitGrows(g, all, ids[0], st);
      var e2 := VisitAllGrows(g, all, ids[1..], mid);
      GrownTwice(g, st, mid, VisitAll(g, all, ids[1..], mid), e1, e2);
      ext := e1 + e2;
      assert forall x :: x in e1 ==> ids[0] in ids && Reaches(g, ids[0], x);
    }
  }

  // ----- the whole walk -----

  ghost function Order(g: Graph, all: set<string>, start: string): seq<string>
    requires Within(g, all) && start in all
  {
    Visit(g, all, start, State({}, [])).order
  }

  /** On any graph, cyclic ones included, the walk finishes exactly the reachable ids, each once. */
  lemma {:induction false} WalkExact(g: Graph, all: set<string>, start: string)
    requires Within(g, all) && start in all
    ensures Distinct(Order(g, all, start))
    ensures forall x :: x in Order(g, all, start) <==> Reaches(g, start, x)
  {
    var st := State({}, []);
    var r := Visit(g, all, start, st);
    var ext := VisitGrows(g, all, start, st);
    assert r.order == ext;
    forall x | Reaches(g, start, x) ensures x in ext {
      var p :| PathBetween(g, start, x, p);
      ClosedContainsPath(g, r.visited, p);
    }
  }

  // ----- topological order -----

  /** Neighbours have a smaller rank. */
  ghost predicate Descends(g: Graph, rank: string -> int) {
    forall x, n :: n in Next(g, x) ==> rank(n) < rank(x)
  }

  /** Ids entered but not finished; they are the callers of the current walk. */
  ghost predicate Pending(st: State, x: string) { x in st.visited && x !in st.order }

  ghost predicate NextBefore(g: Graph, order: seq<string>, i: int)
    requires 0 <= i < |order|
  {
    forall n :: n in Next(g, order[i]) ==> n in order[..i]
  }

  /** Every finished id comes after all of its neighbours. */
  ghost predicate Topological(g: Graph, order: seq<string>) {
    forall i :: 0 <= i < |order| ==> NextBefore(g, order, i)
  }

  lemma {:induction false} TopologicalPush(g: Graph, order: seq<string>, id: string)
    requires Topological(g, order) && forall n :: n in Next(g, id) ==> n in order
    ensures Topological(g, order + [id])
  {
    var o := order + [id];
    forall i | 0 <= i < |o| ensures NextBefore(g, o, i) {
      if i < |order| {
        assert o[..i] == order[..i];
        assert NextBefore(g, order, i);
      } else {
        assert o[..i] == order;
      }
    }
  }

  lemma {:induction false} VisitTopological(g: Graph, all: set<string>, id: string, st: State, rank: string -> int)
    requires Within(g, all) && id in all && Descends(g, rank)
    requires Topological(g, st.order)
    requires forall x :: Pending(st, x) ==> rank(x) > rank(id)
    ensures Topological(g, Visit(g, all, id, st).order)
    decreases all - st.visited, 0
  {
    if id !in st.visited {
      var st' := State(st.visited + {id}, st.order);
      forall x, n | Pending(st', x) && n in Next(g, id) ensures rank(x) > rank(n) {
        assert x == id || Pending(st, x);
      }
      VisitAllTopological(g, all, Next(g, id), st', rank);
      var r := VisitAll(g, all, Next(g, id), st');
      var ext := VisitAllGrows(g, all, Next(g, id), st');
      forall n | n in Next(g, id) ensures n in r.order {
        if n !in r.order { assert Pending(st', n); }
      }
      TopologicalPush(g, r.order, id);
    }
  }

  lemma {:induction false} VisitAllTopological(g: Graph, all: set<string>, ids: seq<string>, st: State,
                                               rank: string -> int)
    requires Within(g, all) && (forall id :: id in ids ==> id in all) && Descends(g, rank)
    requires Topological(g, st.order)
    requires forall x, id :: Pending(st, x) && id in ids ==> rank(x) > rank(id)
    ensures Topological(g, VisitAll(g, all, ids, st).order)
    decreases all - st.visited, 1 + |ids|
  {
    if ids != [] {
      assert ids == [ids[0]] + ids[1..];
      VisitTopological(g, all, ids[0], st, rank);
      var ext := VisitGrows(g, all, ids[0], st);
      var mid := Visit(g, all, ids[0], st);
      forall x | Pending(mid, x) ensures Pending(st, x) { }
      VisitAllTopological(g, all, ids[1..], mid, rank);
    }
  }

  /** On a graph whose edges descend, the walk lists every id after all of its neighbours. */
  lemma {:induction false} WalkTopological(g: Graph, all: set<string>, start: string, rank: string -> int)
    requires Within(g, all) && start in all && Descends(g, rank)
    ensures Topological(g, Order(g, all, start))
  {
    VisitTopological(g, all, start, State({}, []), rank);
  }
}
