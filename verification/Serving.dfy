/** The worker over a sequence of requests: what the class does is what the runs are about. */
module Serving {
  import opened Json
  import opened Store
  import opened Coordinator
  import opened MeshInvariants
  import opened MeshInStep

  /** The run up to and including one more request. */
  lemma {:induction false} RunOneMore(env: Env, v: View, ts: seq<Timed<Request>>, t: Timed<Request>)
    ensures Run(env, v, ts + [t]) == After(env, Run(env, v, ts), t)
    decreases |ts|
  {
    if ts == [] {
      assert [t][1..] == [];
      assert ts + [t] == [t];
      assert Run(env, After(env, v, t), []) == After(env, v, t);
    } else {
      assert (ts + [t])[1..] == ts[1..] + [t];
      RunOneMore(env, After(env, v, ts[0]), ts[1..], t);
    }
  }

  /** The i-th request meets the entries of the run before it. */
  ghost function Met(env: Env, v: View, ts: seq<Timed<Request>>, i: nat): View
    requires i < |ts|
  {
    Live(Run(env, v, ts[..i]), ts[i].now)
  }

  lemma {:induction false} MetThenRun(env: Env, v: View, ts: seq<Timed<Request>>, i: nat)
    requires i < |ts|
    ensures Run(env, v, ts[..i + 1]) == Handle(env, Met(env, v, ts, i), ts[i].now, ts[i].act).0
  {
    assert ts[..i + 1] == ts[..i] + [ts[i]];
    RunOneMore(env, v, ts[..i], ts[i]);
  }

  /** What the run answers to each request. */
  ghost function Answers(env: Env, v: View, ts: seq<Timed<Request>>, n: nat): (r: seq<Response>)
    requires n <= |ts|
    ensures |r| == n
  {
    if n == 0 then []
    else Answers(env, v, ts, n - 1) + [Handle(env, Met(env, v, ts, n - 1), ts[n - 1].now, ts[n - 1].act).1]
  }

  /** How far the worker has come: its store looks like the run's entries, and its answers are the run's. */
  ghost predicate Served(env: Env, v: View, ts: seq<Timed<Request>>, i: nat, clock: int, seen: View,
                         responses: seq<Response>)
    requires i <= |ts|
  {
    seen == Live(Run(env, v, ts[..i]), clock) && responses == Answers(env, v, ts, i)
  }

  /** Two stores a reader cannot tell apart now cannot be told apart later. */
  lemma {:induction false} SeenAlike(a: View, b: View, now: int, later: int)
    requires Live(a, now) == Live(b, now) && now <= later
    ensures Live(a, later) == Live(b, later)
  {
    LiveLater(a, now, later);
    LiveLater(b, now, later);
  }

  /** One request of the list. */
  method ServeAt(w: Worker, ghost v: View, ghost clock: int, ts: seq<Timed<Request>>, i: nat, served: seq<Response>)
    returns (responses: seq<Response>)
    requires w.kv.memory.Valid() && i < |ts| && Servable(ts[i].act) && clock <= ts[i].now
    requires Served(w.env, v, ts, i, clock, w.Seen(clock), served)
    modifies w.kv
    ensures w.kv.memory.Valid()
    ensures Served(w.env, v, ts, i + 1, ts[i].now, w.Seen(ts[i].now), responses)
  {
    SeenAlike(w.kv.memory.data, Run(w.env, v, ts[..i]), clock, ts[i].now);
    MetThenRun(w.env, v, ts, i);
    var response := w.ServeOne(ts[i].now, ts[i].act);
    LiveLater(w.kv.memory.data, ts[i].now, ts[i].now);
    responses := served + [response];
  }

  /** Requests served one at a time leave, for every reader, the entries of the run, and each is answered
      as the run says. */
  method Serve(w: Worker, start: int, ts: seq<Timed<Request>>) returns (responses: seq<Response>)
    requires w.kv.memory.Valid() && Ordered(start, ts)
    requires forall i :: 0 <= i < |ts| ==> Servable(ts[i].act)
    modifies w.kv
    ensures w.kv.memory.Valid()
    ensures w.Seen(End(start, ts)) == Live(Run(w.env, old(w.Seen(start)), ts), End(start, ts))
    ensures responses == Answers(w.env, old(w.Seen(start)), ts, |ts|)
  {
    ghost var v := w.Seen(start);
    ghost var clock := start;
    responses := [];
    LiveLater(w.kv.memory.data, start, start);
    for i := 0 to |ts|
      invariant w.kv.memory.Valid()
      invariant clock == if i == 0 then start else ts[i - 1].now
      invariant Served(w.env, v, ts, i, clock, w.Seen(clock), responses)
    {
      responses := ServeAt(w, v, clock, ts, i, responses);
      clock := ts[i].now;
    }
    assert ts[..|ts|] == ts;
  }

  /** The node ids of /mesh/status, of the configured network, if there is one. */
  method StatusIds(w: Worker, now: int) returns (ids: seq<string>)
    requires w.kv.memory.Valid()
    modifies w.kv
    ensures w.kv.memory.Valid() && w.Seen(now) == old(w.Seen(now))
    ensures forall id :: id in ids <==> id in StatusNodes(w.env, w.Seen(now))
  {
    ghost var keys;
    var values;
    values, keys := w.ListValues(now, "mesh:");
    ghost var view := w.Seen(now);
    ids := [];
    for i := 0 to |values|
      invariant w.kv.memory.Valid() && w.Seen(now) == view
      invariant forall id :: id in ids <==> exists j :: 0 <= j < i && StatusAt(w.env, values[j], id)
    {
      if Shown(w.env, values[i]) {
        ids := ids + [NodeIdOf(values[i])];
      }
    }
    ListedStatus(w.env, view, keys, values);
  }

  predicate StatusAt(env: Env, r: Json, id: string) { Shown(env, r) && NodeIdOf(r) == id }

  lemma {:induction false} ListedStatus(env: Env, view: View, keys: seq<string>, values: seq<Json>)
    requires forall k :: k in keys <==> k in view && IsMeshKey(k)
    requires |values| == |keys|
    requires forall j :: 0 <= j < |keys| ==> keys[j] in view && values[j] == Read(view[keys[j]].value)
    ensures forall id ::
      (exists j :: 0 <= j < |values| && StatusAt(env, values[j], id)) <==> id in StatusNodes(env, view)
  {
    forall id
      ensures (exists j :: 0 <= j < |values| && StatusAt(env, values[j], id)) <==> id in StatusNodes(env, view)
    {
      if j :| 0 <= j < |values| && StatusAt(env, values[j], id) {
        assert keys[j] in keys;
      }
      if id in StatusNodes(env, view) {
        var k :| k in view && IsMeshKey(k) && Shown(env, Read(view[k].value))
          && NodeIdOf(Read(view[k].value)) == id;
        var j :| 0 <= j < |keys| && keys[j] == k;
        assert StatusAt(env, values[j], id);
      }
    }
  }

  /** The ids of /proxies. */
  method ProxyIds(w: Worker, now: int) returns (ids: seq<string>)
    requires w.kv.memory.Valid()
    modifies w.kv
    ensures w.kv.memory.Valid() && w.Seen(now) == old(w.Seen(now))
    ensures forall id :: id in ids <==> id in ProxyNodes(w.Seen(now))
  {
    ghost var keys;
    var values;
    values, keys := w.ListValues(now, "proxy:");
    ghost var view := w.Seen(now);
    ids := [];
    for i := 0 to |values|
      invariant w.kv.memory.Valid() && w.Seen(now) == view
      invariant forall id :: id in ids <==> exists j :: 0 <= j < i && TextOf(values[j], "id") == id
    {
      ids := ids + [TextOf(values[i], "id")];
    }
    ListedProxies(view, keys, values);
  }

  lemma {:induction false} ListedProxies(view: View, keys: seq<string>, values: seq<Json>)
    requires forall k :: k in keys <==> k in view && IsProxyKey(k)
    requires |values| == |keys|
    requires forall j :: 0 <= j < |keys| ==> keys[j] in view && values[j] == Read(view[keys[j]].value)
    ensures forall id :: (exists j :: 0 <= j < |values| && TextOf(values[j], "id") == id) <==> id in ProxyNodes(view)
  {
    forall id ensures (exists j :: 0 <= j < |values| && TextOf(values[j], "id") == id) <==> id in ProxyNodes(view) {
      if j :| 0 <= j < |values| && TextOf(values[j], "id") == id {
        assert keys[j] in keys;
      }
      if id in ProxyNodes(view) {
        var k :| k in view && IsProxyKey(k) && TextOf(Read(view[k].value), "id") == id;
        var j :| 0 <= j < |keys| && keys[j] == k;
        assert TextOf(values[j], "id") == id;
      }
    }
  }

  /** After every run from the empty store of mesh requests that name the one configured network, the two
      endpoints show the same nodes, whenever they are asked. */
  lemma {:induction false} RunShowsSameNodes(env: Env, ts: seq<Timed<Request>>, now: int)
    requires env.networkId != ""
    requires forall i :: 0 <= i < |ts| ==> WellFormed(ts[i].act) && NamesNetwork(env, ts[i].act)
    ensures var v := Live(Run(env, map[], ts), now);
      InStep(env, v) && AllGenuine(v) && StatusNodes(env, v) == ProxyNodes(v)
  {
    var v := Live(Run(env, map[], ts), now);
    NothingInStep(env);
    InStepInEveryRun(env, map[], ts);
    AgeKeepsStep(env, Run(env, map[], ts), now);
    forall k | k in v && IsMeshKey(k) ensures Genuine(k, v[k].value) { GenuineInEveryRun(env, ts, k); }
    SameNodesListed(env, v);
  }

  /** A session: a worker with nothing stored serves such requests, then both endpoints are asked. */
  method ServeThenList(w: Worker, start: int, ts: seq<Timed<Request>>, now: int)
    returns (status: seq<string>, proxies: seq<string>)
    requires w.kv.memory.Valid() && w.Seen(start) == map[] && w.env.networkId != ""
    requires Ordered(start, ts) && End(start, ts) <= now
    requires forall i :: 0 <= i < |ts| ==> WellFormed(ts[i].act) && NamesNetwork(w.env, ts[i].act)
    modifies w.kv
    ensures forall id :: id in status <==> id in proxies
  {
    var responses := Serve(w, start, ts);
    SeenAlike(w.kv.memory.data, Run(w.env, map[], ts), End(start, ts), now);
    RunShowsSameNodes(w.env, ts, now);
    status := StatusIds(w, now);
    proxies := ProxyIds(w, now);
  }
}
