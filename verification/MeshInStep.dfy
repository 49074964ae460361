/** With one configured network, the mesh: and proxy: entries of every node stay in step. */
module MeshInStep {
  import opened Json
  import opened JsonRoundTrip
  import opened Canonical
  import opened Store
  import opened Coordinator
  import opened MeshInvariants

  // ----- the proxy config of a stored record -----

  /** a prints as b does, in and out of objects. */
  predicate PrintsAlike(a: Json, b: Json) {
    (a == Undefined <==> b == Undefined) && Print(a) == Print(b)
  }

  predicate FieldsAlike(f: seq<Field>, g: seq<Field>) {
    |f| == |g| && forall i :: 0 <= i < |f| ==> f[i].key == g[i].key && PrintsAlike(f[i].val, g[i].val)
  }

  lemma {:induction false} MembersAlike(f: seq<Field>, g: seq<Field>)
    requires FieldsAlike(f, g)
    ensures Members(f) == Members(g)
  {
    if f != [] {
      assert PrintsAlike(f[0].val, g[0].val);
      assert FieldsAlike(f[1..], g[1..]);
      MembersAlike(f[1..], g[1..]);
    }
  }

  lemma {:induction false} StripAlike(v: Json)
    ensures PrintsAlike(v, StripIfAny(v))
  {
    PrintStrip(v);
    StripDefined(v);
  }

  lemma {:induction false} ChildAlike(r: Json, k: string)
    requires Regular(r)
    ensures PrintsAlike(Child(r, k), Child(StripIfAny(r), k))
  {
    ChildStrip(r, k);
    StripAlike(Child(r, k));
  }

  lemma {:induction false} NestedAlike(r: Json, a: string, b: string)
    requires Regular(r)
    ensures PrintsAlike(Child(Child(r, a), b), Child(Child(StripIfAny(r), a), b))
  {
    NestedStrip(r, a, b);
    StripAlike(Child(Child(r, a), b));
  }

  lemma {:induction false} ValueAlike(r: Json, i: nat)
    requires Regular(r) && r.Obj?
    ensures PrintsAlike(ProxyValue(r, i), ProxyValue(Strip(r), i))
  {
    match i
    case 0 => ChildAlike(r, "nodeId");
    case 1 => ChildAlike(r, "protocol");
    case 2 => NestedAlike(r, "endpoint", "host");
    case 3 => NestedAlike(r, "endpoint", "port");
    case 4 => NestedAlike(r, "endpoint", "sni");
    case 5 => NestedAlike(r, "endpoint", "transport");
    case 6 => NestedAlike(r, "endpoint", "path");
    case 7 => NestedAlike(r, "endpoint", "security");
    case 8 => NestedAlike(r, "lifecycle", "createdAt");
    case 9 => NestedAlike(r, "lifecycle", "expiresAt");
    case 10 => ChildAlike(r, "networkId");
    case 11 => ChildAlike(r, "nodeId");
    case _ => ReadRecord(r);
  }

  /** Deriving the proxy config from the stored record prints what deriving it from the record sent does. */
  lemma {:induction false} ProxyOfStored(r: Json)
    requires Regular(r) && r.Obj?
    ensures ProxyText(Strip(r)) == ProxyText(r)
  {
    var f, g := DeriveProxyConfig(r).fields, DeriveProxyConfig(Strip(r)).fields;
    forall i | 0 <= i < |f| ensures f[i].key == g[i].key && PrintsAlike(f[i].val, g[i].val) {
      ValueAlike(r, i);
    }
    MembersAlike(f, g);
  }

  // ----- in step -----

  ghost predicate Paired(env: Env, v: View, node: string) {
    var m, p := MeshKey(env.networkId, node), ProxyKey(node);
    && (m in v <==> p in v)
    && (m in v ==> v[m].expires == v[p].expires && v[p].value == ProxyText(Read(v[m].value)))
  }

  /** Every mesh entry holds a record of the network under its own key. */
  ghost predicate OneNetwork(env: Env, v: View) {
    forall k :: k in v && IsMeshKey(k) ==> OwnRecord(env, k, v[k].value)
  }

  ghost predicate OwnRecord(env: Env, k: string, value: string) {
    var r := Read(value);
    r.Obj? && NetworkText(r) == env.networkId && k == MeshKey(env.networkId, NodeIdOf(r))
  }

  /** A node's mesh entry is live exactly when its proxy entry is, with the same expiry, and the
      proxy value is the config derived from the mesh value. */
  ghost predicate InStep(env: Env, v: View) {
    OneNetwork(env, v) && forall node :: Paired(env, v, node)
  }

  lemma {:induction false} AgeKeepsStep(env: Env, v: View, now: int)
    requires InStep(env, v)
    ensures InStep(env, Live(v, now))
  {
    forall node ensures Paired(env, Live(v, now), node) {
      assert Paired(env, v, node);
    }
    forall k | k in Live(v, now) && IsMeshKey(k) ensures OwnRecord(env, k, Live(v, now)[k].value) {
      assert OwnRecord(env, k, v[k].value);
    }
  }

  /** The mesh requests that name the configured network; those with a record are checked for it. */
  ghost predicate NamesNetwork(env: Env, req: Request) {
    match req
    case Register(_) => true
    case HeartbeatRecord(_) => true
    case HeartbeatNode(n, _, _) => Effective(env, n) == env.networkId
    case Deregister(n, _) => Effective(env, n) == env.networkId
    case _ => false
  }

  lemma {:induction false} StoreKeepsStep(env: Env, v: View, r: Json, expires: int, w: View)
    requires InStep(env, v) && Regular(r) && r.Obj? && NetworkText(r) == NetworkOf(r) == env.networkId
    requires w == PutBoth(v, r, expires)
    ensures InStep(env, w)
  {
    var id := NodeIdOf(r);
    ReadRecord(r);
    StripKeepsTexts(r);
    ProxyOfStored(r);
    KeysApart(env.networkId, id, id);
    assert OwnRecord(env, MeshKey(env.networkId, id), RecordText(r));
    forall node ensures Paired(env, w, node) {
      assert Paired(env, v, node);
      KeysApart(env.networkId, node, id);
      KeysApart(env.networkId, id, node);
      if node != id { OtherNode(env.networkId, node, id); }
    }
    forall k | k in w && IsMeshKey(k) ensures OwnRecord(env, k, w[k].value) {
      if k != MeshKey(env.networkId, id) { assert OwnRecord(env, k, v[k].value); }
    }
  }

  lemma {:induction false} OtherNode(net: string, a: string, b: string)
    requires a != b
    ensures MeshKey(net, a) != MeshKey(net, b) && ProxyKey(a) != ProxyKey(b)
  {
    if MeshKey(net, a) == MeshKey(net, b) { MeshKeyInjective(net, net, a, b); }
    if ProxyKey(a) == ProxyKey(b) { ProxyKeyInjective(a, b); }
  }

  lemma {:induction false} RenewKeepsStep(env: Env, v: View, node: string, expires: int, w: View)
    requires InStep(env, v) && MeshKey(env.networkId, node) in v
    requires w == Renewed(v, MeshKey(env.networkId, node), ProxyKey(node), expires)
    ensures InStep(env, w)
  {
    assert Paired(env, v, node);
    KeysApart(env.networkId, node, node);
    forall other ensures Paired(env, w, other) {
      assert Paired(env, v, other);
      KeysApart(env.networkId, other, node);
      KeysApart(env.networkId, node, other);
      if other != node { OtherNode(env.networkId, other, node); }
    }
    forall k | k in w && IsMeshKey(k) ensures OwnRecord(env, k, w[k].value) {
      assert OwnRecord(env, k, v[k].value);
    }
  }

  lemma {:induction false} RemoveKeepsStep(env: Env, v: View, node: string)
    requires InStep(env, v)
    ensures InStep(env, v - {MeshKey(env.networkId, node)} - {ProxyKey(node)})
  {
    var w := v - {MeshKey(env.networkId, node)} - {ProxyKey(node)};
    forall other ensures Paired(env, w, other) {
      assert Paired(env, v, other);
      KeysApart(env.networkId, other, node);
      KeysApart(env.networkId, node, other);
      if other != node { OtherNode(env.networkId, other, node); }
    }
    forall k | k in w && IsMeshKey(k) ensures OwnRecord(env, k, w[k].value) {
      assert OwnRecord(env, k, v[k].value);
    }
  }

  lemma {:induction false} HeartbeatNodeCases(env: Env, v: View, now: int, n: string, id: string, expiresAt: string,
                                              key: string)
    requires key == MeshKey(Effective(env, n), id)
    ensures var w := HandleHeartbeatNode(env, v, now, n, id, expiresAt).0;
      if Effective(env, n) != "" && id != "" && key in v
      then w == Renewed(v, key, ProxyKey(id), now + HeartbeatTtl(env, v[key].value, expiresAt, now) * 1000)
      else w == v
  {
  }

  lemma {:induction false} HeartbeatKeepsStep(env: Env, v: View, now: int, n: string, id: string, expiresAt: string,
                                              w: View)
    requires InStep(env, v) && Effective(env, n) == env.networkId
    requires w == HandleHeartbeatNode(env, v, now, n, id, expiresAt).0
    ensures InStep(env, w)
  {
    var key := MeshKey(env.networkId, id);
    HeartbeatNodeCases(env, v, now, n, id, expiresAt, key);
    if w != v {
      RenewKeepsStep(env, v, id, now + HeartbeatTtl(env, v[key].value, expiresAt, now) * 1000, w);
    }
  }

  lemma {:induction false} StepKeepsStep(env: Env, v: View, now: int, req: Request)
    requires env.networkId != "" && InStep(env, v) && WellFormed(req) && NamesNetwork(env, req)
    ensures InStep(env, Handle(env, v, now, req).0)
  {
    match req
    case Register(r) =>
      RegisterCases(env, v, now, r);
      if Accepts(env, r, now) {
        AcceptedIsObject(env, r, now);
        StoredKeepsStep(env, v, now, r, Stored(env, v, now, r).0, TtlFromExpiresAt(env, ExpiresAt(r), now));
      }
    case HeartbeatRecord(r) =>
      HeartbeatRecordCases(env, v, now, r);
      if Accepts(env, r, now) {
        AcceptedIsObject(env, r, now);
        StoredKeepsStep(env, v, now, r, Stored(env, v, now, r).0, TtlFromExpiresAt(env, ExpiresAt(r), now));
      }
    case HeartbeatNode(n, id, e) =>
      HeartbeatKeepsStep(env, v, now, n, id, e, HandleHeartbeatNode(env, v, now, n, id, e).0);
    case Deregister(n, id) => RemoveKeepsStep(env, v, id);
  }

  lemma {:induction false} StoredKeepsStep(env: Env, v: View, now: int, r: Json, w: View, ttl: int)
    requires InStep(env, v) && Regular(r) && r.Obj? && NetworkText(r) == NetworkOf(r) == env.networkId
    requires w == StoredFor(v, now, r, ttl).0
    ensures InStep(env, w)
  {
    StoreKeepsStep(env, v, r, now + ttl * 1000, w);
  }

  lemma {:induction false} RegisterCases(env: Env, v: View, now: int, r: Json)
    ensures var w := HandleRegister(env, v, now, r).0;
      w == v || (Accepts(env, r, now) && w == Stored(env, v, now, r).0)
  {
  }

  lemma {:induction false} HeartbeatRecordCases(env: Env, v: View, now: int, r: Json)
    ensures var w := HandleHeartbeatRecord(env, v, now, r).0;
      w == v || (Accepts(env, r, now) && w == Stored(env, v, now, r).0)
  {
  }

  /** In every run of mesh requests that name the one configured network, mesh and proxy entries stay
      in step for every node. */
  lemma {:induction false} InStepInEveryRun(env: Env, v: View, ts: seq<Timed<Request>>)
    requires env.networkId != "" && InStep(env, v)
    requires forall i :: 0 <= i < |ts| ==> WellFormed(ts[i].act) && NamesNetwork(env, ts[i].act)
    ensures InStep(env, Run(env, v, ts))
    decreases |ts|
  {
    if ts != [] {
      AgeKeepsStep(env, v, ts[0].now);
      StepKeepsStep(env, Live(v, ts[0].now), ts[0].now, ts[0].act);
      InStepInEveryRun(env, After(env, v, ts[0]), ts[1..]);
    }
  }

  // ----- /mesh/status and /proxies -----

  /** `!env.NETWORK_ID || record.networkId === env.NETWORK_ID` */
  predicate Shown(env: Env, r: Json) { env.networkId == "" || NetworkText(r) == env.networkId }

  /** The node ids of /mesh/status: records under "mesh:", of the configured network if there is one. */
  ghost function StatusNodes(env: Env, v: View): set<string> {
    set k | k in v && IsMeshKey(k) && Shown(env, Read(v[k].value)) :: NodeIdOf(Read(v[k].value))
  }

  /** The ids of /proxies. */
  ghost function ProxyNodes(v: View): set<string> {
    set k | k in v && IsProxyKey(k) :: TextOf(Read(v[k].value), "id")
  }

  lemma {:induction false} ReadProxy(r: Json)
    requires Regular(r) && r.Obj?
    ensures TextOf(Read(ProxyText(r)), "id") == NodeIdOf(r)
  {
    ProxyRegular(r);
    RoundTrip(DeriveProxyConfig(r));
    ChildStrip(DeriveProxyConfig(r), "id");
  }

  lemma {:induction false} ProxyNamesDiffer(i: nat, j: nat)
    requires i < j < |PROXY_NAMES|
    ensures PROXY_NAMES[i] != PROXY_NAMES[j]
  {
    var a, b := PROXY_NAMES[i], PROXY_NAMES[j];
    assert |a| != |b| || a[0] != b[0] || a[1] != b[1];
  }

  lemma {:induction false} ProxyValueRegular(r: Json, i: nat)
    requires Regular(r) && r.Obj?
    ensures Regular(ProxyValue(r, i))
  {
    match i
    case 0 => ChildStrip(r, "nodeId");
    case 1 => ChildStrip(r, "protocol");
    case 2 => NestedStrip(r, "endpoint", "host");
    case 3 => NestedStrip(r, "endpoint", "port");
    case 4 => NestedStrip(r, "endpoint", "sni");
    case 5 => NestedStrip(r, "endpoint", "transport");
    case 6 => NestedStrip(r, "endpoint", "path");
    case 7 => NestedStrip(r, "endpoint", "security");
    case 8 => NestedStrip(r, "lifecycle", "createdAt");
    case 9 => NestedStrip(r, "lifecycle", "expiresAt");
    case 10 => ChildStrip(r, "networkId");
    case 11 => ChildStrip(r, "nodeId");
    case _ => StripRegular(r);
  }

  lemma {:induction false} ProxyRegular(r: Json)
    requires Regular(r) && r.Obj?
    ensures Regular(DeriveProxyConfig(r))
    ensures Child(DeriveProxyConfig(r), "id") == Child(r, "nodeId")
  {
    var f := DeriveProxyConfig(r).fields;
    assert Keys(f) == PROXY_NAMES;
    forall i, j | 0 <= i < j < |f| ensures Keys(f)[i] != Keys(f)[j] { ProxyNamesDiffer(i, j); }
    forall i | 0 <= i < |f| ensures Regular(f[i].val) { ProxyValueRegular(r, i); }
    LookupAt(f, 0);
  }

  /** So, over genuine entries in step, the two endpoints list the same nodes. */
  lemma {:induction false} SameNodesListed(env: Env, v: View)
    requires InStep(env, v) && AllGenuine(v)
    ensures StatusNodes(env, v) == ProxyNodes(v)
    ensures |set k | k in v && IsMeshKey(k)| == |set k | k in v && IsProxyKey(k)|
  {
    forall id ensures id in StatusNodes(env, v) <==> id in ProxyNodes(v) {
      if id in StatusNodes(env, v) { StatusToProxy(env, v, id); }
      if id in ProxyNodes(v) { ProxyToStatus(env, v, id); }
    }
    SameSize(env, v);
  }

  lemma {:induction false} MeshHasProxy(env: Env, v: View, k: string)
    requires InStep(env, v) && k in v && IsMeshKey(k)
    ensures |k| >= |env.networkId| + 6
    ensures var id := k[|env.networkId| + 6..];
      k == MeshKey(env.networkId, id) && ProxyKey(id) in v && IsProxyKey(ProxyKey(id)) && ProxyKey(id)[6..] == id
  {
    var id := NodeIdOf(Read(v[k].value));
    assert OwnRecord(env, k, v[k].value) && Paired(env, v, id);
    KeysApart(env.networkId, id, id);
    assert k[|env.networkId| + 6..] == id && ProxyKey(id)[6..] == id;
  }

  lemma {:induction false} ProxyHasMesh(env: Env, v: View, p: string)
    requires InStep(env, v) && p in v && IsProxyKey(p)
    ensures |p| >= 6
    ensures var k := MeshKey(env.networkId, p[6..]);
      && p == ProxyKey(p[6..]) && k in v && IsMeshKey(k)
      && |k| >= |env.networkId| + 6 && k[|env.networkId| + 6..] == p[6..]
  {
    var id := p[6..];
    assert p == ProxyKey(id) && Paired(env, v, id);
    KeysApart(env.networkId, id, id);
    assert MeshKey(env.networkId, id)[|env.networkId| + 6..] == id;
  }

  lemma {:induction false} SameSize(env: Env, v: View)
    requires InStep(env, v)
    ensures |set k | k in v && IsMeshKey(k)| == |set k | k in v && IsProxyKey(k)|
  {
    var net := env.networkId;
    var ms, ps := set k | k in v && IsMeshKey(k), set k | k in v && IsProxyKey(k);
    var toProxy := (k: string) => if |k| >= |net| + 6 then ProxyKey(k[|net| + 6..]) else k;
    var toMesh := (p: string) => if |p| >= 6 then MeshKey(net, p[6..]) else p;
    forall k | k in ms ensures toProxy(k) in ps && toMesh(toProxy(k)) == k { MeshHasProxy(env, v, k); }
    forall p | p in ps ensures toMesh(p) in ms && toProxy(toMesh(p)) == p { ProxyHasMesh(env, v, p); }
    Bijection(ms, ps, toProxy, toMesh);
  }

  lemma {:induction false} Bijection(a: set<string>, b: set<string>, f: string -> string, g: string -> string)
    requires forall x :: x in a ==> f(x) in b && g(f(x)) == x
    requires forall y :: y in b ==> g(y) in a && f(g(y)) == y
    ensures |a| == |b|
    decreases |a|
  {
    if a == {} {
      assert forall y :: y in b ==> g(y) in a;
      assert b == {};
    } else {
      var x :| x in a;
      Bijection(a - {x}, b - {f(x)}, f, g);
    }
  }

  lemma {:induction false} StatusToProxy(env: Env, v: View, id: string)
    requires InStep(env, v) && AllGenuine(v) && id in StatusNodes(env, v)
    ensures id in ProxyNodes(v)
  {
    var k :| k in v && IsMeshKey(k) && NodeIdOf(Read(v[k].value)) == id;
    assert OwnRecord(env, k, v[k].value) && Paired(env, v, id) && Genuine(k, v[k].value);
    KeysApart(env.networkId, id, id);
    ReadProxy(Read(v[k].value));
    assert ProxyKey(id) in v && IsProxyKey(ProxyKey(id));
    assert TextOf(Read(v[ProxyKey(id)].value), "id") == id;
  }

  lemma {:induction false} ProxyToStatus(env: Env, v: View, id: string)
    requires InStep(env, v) && AllGenuine(v) && id in ProxyNodes(v)
    ensures id in StatusNodes(env, v)
  {
    var p :| p in v && IsProxyKey(p) && TextOf(Read(v[p].value), "id") == id;
    var node := p[6..];
    assert p == ProxyKey(node);
    assert Paired(env, v, node);
    var k := MeshKey(env.networkId, node);
    KeysApart(env.networkId, node, node);
    assert k in v && IsMeshKey(k);
    assert OwnRecord(env, k, v[k].value) && Genuine(k, v[k].value);
    ReadProxy(Read(v[k].value));
    assert NodeIdOf(Read(v[k].value)) == id;
  }

  // ----- requests that name another network, and legacy requests -----

  /** Two different networks build the same key exactly when one of them, with a ":" and more behind it,
      is the start of the other, and what is left over moves into the node id. */
  lemma {:induction false} SameKeyIff(m: string, a: string, n: string, b: string)
    requires m != n
    ensures MeshKey(m, a) == MeshKey(n, b)
      <==> Overlaps(m, a, n, b) || Overlaps(n, b, m, a)
  {
    if MeshKey(m, a) == MeshKey(n, b) {
      if |m| < |n| { KeyOverlap(m, a, n, b); } else { KeyOverlap(n, b, m, a); }
    }
  }

  /** n is m, ":" and some text more, and a is that text, ":" and b. */
  predicate Overlaps(m: string, a: string, n: string, b: string) {
    |m| < |n| && n[..|m| + 1] == m + ":" && a == n[|m| + 1..] + ":" + b
  }

  lemma {:induction false} KeyOverlap(m: string, a: string, n: string, b: string)
    requires MeshKey(m, a) == MeshKey(n, b) && |m| <= |n| && m != n
    ensures Overlaps(m, a, n, b)
  {
    var s := MeshKey(m, a);
    assert s[5..] == m + ":" + a && s[5..] == n + ":" + b;
    assert (m + ":" + a)[..|m|] == m && (n + ":" + b)[..|n|] == n;
    assert (m + ":" + a)[..|m| + 1] == m + ":" && (n + ":" + b)[..|m| + 1] == n[..|m| + 1];
    assert (m + ":" + a)[|m| + 1..] == a && (n + ":" + b)[|m| + 1..] == n[|m| + 1..] + ":" + b;
  }

  /** A key built for another network that is in use belongs to a node of this one, never the same node. */
  lemma {:induction false} ForeignKey(env: Env, v: View, n: string, node: string)
    requires InStep(env, v) && n != env.networkId && MeshKey(n, node) in v
    ensures exists other :: other != node && MeshKey(n, node) == MeshKey(env.networkId, other)
  {
    var k := MeshKey(n, node);
    KeysApart(n, node, node);
    assert OwnRecord(env, k, v[k].value);
    var other := NodeIdOf(Read(v[k].value));
    MeshKeyInjective(n, env.networkId, node, other);
  }

  /** Deregistering keeps mesh and proxy in step exactly when it names the configured network or
      finds neither of its two keys. */
  lemma {:induction false} DeregisterIff(env: Env, v: View, now: int, networkId: string, node: string)
    requires InStep(env, v) && env.networkId != "" && node != ""
    ensures var n := Effective(env, networkId);
      InStep(env, Handle(env, v, now, Deregister(networkId, node)).0)
      <==> n == env.networkId || (MeshKey(n, node) !in v && ProxyKey(node) !in v)
  {
    var n := Effective(env, networkId);
    var w := Handle(env, v, now, Deregister(networkId, node)).0;
    if n == env.networkId {
      RemoveKeepsStep(env, v, node);
    } else if MeshKey(n, node) in v {
      ForeignKey(env, v, n, node);
      var other :| other != node && MeshKey(n, node) == MeshKey(env.networkId, other);
      OtherNode(env.networkId, other, node);
      KeysApart(env.networkId, other, other);
      KeysApart(n, node, other);
      assert Paired(env, v, other);
      assert !Paired(env, w, other);
    } else if ProxyKey(node) in v {
      assert Paired(env, v, node);
      KeysApart(env.networkId, node, node);
      assert !Paired(env, w, node);
    } else {
      assert w == v;
    }
  }

  /** A heartbeat naming a node keeps them in step exactly when it names the configured network, finds
      no entry, or happens to change no expiry. */
  lemma {:induction false} HeartbeatNodeIff(env: Env, v: View, now: int, networkId: string, node: string,
                                            expiresAt: string)
    requires InStep(env, v) && env.networkId != "" && node != ""
    ensures var n := Effective(env, networkId);
      var key := MeshKey(n, node);
      InStep(env, HandleHeartbeatNode(env, v, now, networkId, node, expiresAt).0)
      <==> n == env.networkId || key !in v || KeepsExpiries(env, v, now, key, node, expiresAt)
  {
    var n, w := Effective(env, networkId), HandleHeartbeatNode(env, v, now, networkId, node, expiresAt).0;
    var key := MeshKey(n, node);
    HeartbeatNodeCases(env, v, now, networkId, node, expiresAt, key);
    if key in v {
      RenewedIff(env, v, n, node, now + HeartbeatTtl(env, v[key].value, expiresAt, now) * 1000, w);
    }
  }

  lemma {:induction false} RenewedIff(env: Env, v: View, n: string, node: string, expires: int, w: View)
    requires InStep(env, v) && MeshKey(n, node) in v
    requires w == Renewed(v, MeshKey(n, node), ProxyKey(node), expires)
    ensures var key, p := MeshKey(n, node), ProxyKey(node);
      InStep(env, w)
      <==> n == env.networkId || (v[key].expires == expires && (p in v ==> v[p].expires == expires))
  {
    if n == env.networkId {
      RenewKeepsStep(env, v, node, expires, w);
    } else {
      ForeignHeartbeat(env, v, n, node, expires, w);
    }
  }

  /** The new expiry is the one the entries already have. */
  ghost predicate KeepsExpiries(env: Env, v: View, now: int, key: string, node: string, expiresAt: string)
    requires key in v
  {
    var expires := now + HeartbeatTtl(env, v[key].value, expiresAt, now) * 1000;
    v[key].expires == expires && (ProxyKey(node) in v ==> v[ProxyKey(node)].expires == expires)
  }

  lemma {:induction false} ForeignHeartbeat(env: Env, v: View, n: string, node: string, expires: int, w: View)
    requires InStep(env, v) && n != env.networkId && MeshKey(n, node) in v
    requires w == Renewed(v, MeshKey(n, node), ProxyKey(node), expires)
    ensures var key, p := MeshKey(n, node), ProxyKey(node);
      InStep(env, w) <==> v[key].expires == expires && (p in v ==> v[p].expires == expires)
  {
    var key, p := MeshKey(n, node), ProxyKey(node);
    ForeignKey(env, v, n, node);
    var other :| other != node && key == MeshKey(env.networkId, other);
    KeysApart(n, node, node);
    if v[key].expires == expires && (p in v ==> v[p].expires == expires) {
      assert w == v;
    } else if v[key].expires != expires {
      assert Paired(env, v, other);
      OtherNode(env.networkId, other, node);
      KeysApart(n, node, other);
      assert !Paired(env, w, other);
    } else {
      assert Paired(env, v, node);
      OtherNode(env.networkId, other, node);
      KeysApart(env.networkId, node, node);
      assert !Paired(env, w, node);
    }
  }

  /** The legacy delete route keeps them in step exactly when there is no such proxy entry. */
  lemma {:induction false} LegacyDeleteIff(env: Env, v: View, now: int, id: string)
    requires InStep(env, v)
    ensures InStep(env, Handle(env, v, now, LegacyDelete(id)).0) <==> ProxyKey(id) !in v
  {
    var w := Handle(env, v, now, LegacyDelete(id)).0;
    if ProxyKey(id) in v {
      assert Paired(env, v, id);
      KeysApart(env.networkId, id, id);
      assert !Paired(env, w, id);
    } else {
      assert w == v;
    }
  }

  // ----- runs that separate the two families -----

  /** What is live at t2 when one accepted record was registered at t1. */
  ghost function Registered(env: Env, r: Json, t1: int, t2: int): View {
    Live(Run(env, map[], [Timed(t1, Register(r))]), t2)
  }

  /** An accepted record of the configured network, with time left at t2. */
  ghost predicate Lasting(env: Env, r: Json, t1: int, t2: int) {
    && env.networkId != "" && Regular(r) && Accepts(env, r, t1)
    && env.parseDate(ExpiresAt(r)).Some? && t1 <= t2 <= env.parseDate(ExpiresAt(r)).value
  }

  lemma {:induction false} NothingInStep(env: Env)
    ensures InStep(env, map[])
  {
    var v: View := map[];
    assert forall node :: Paired(env, v, node);
  }

  lemma {:induction false} RegisteredInStep(env: Env, r: Json, t1: int, t2: int)
    requires Lasting(env, r, t1, t2)
    ensures var v, k := Registered(env, r, t1, t2), MeshKey(env.networkId, NodeIdOf(r));
      && InStep(env, v) && k in v && ProxyKey(NodeIdOf(r)) in v
      && v[k].expires == t1 + TtlFromExpiresAt(env, ExpiresAt(r), t1) * 1000
  {
    var ts := [Timed(t1, Register(r))];
    NothingInStep(env);
    InStepInEveryRun(env, map[], ts);
    AgeKeepsStep(env, Run(env, map[], ts), t2);
    AcceptedIsObject(env, r, t1);
    FirstStored(env, r, t1, t2);
    KeysApart(env.networkId, NodeIdOf(r), NodeIdOf(r));
    assert Paired(env, Registered(env, r, t1, t2), NodeIdOf(r));
  }

  lemma {:induction false} ShiftedKey(net: string, a: string, b: string)
    ensures net + ":" + a != net && MeshKey(net + ":" + a, b) == MeshKey(net, a + ":" + b)
  {
    var n := net + ":" + a;
    assert |n| > |net|;
    assert n[..|net| + 1] == net + ":" && n[|net| + 1..] == a;
    assert Overlaps(net, a + ":" + b, n, b);
    SameKeyIff(net, a + ":" + b, n, b);
  }

  /** After one registration: the network net:a and the node b build the key of the node a:b of the
      network net. */
  lemma {:induction false} ForeignKeyHits(env: Env, r: Json, t1: int, t2: int, a: string, b: string)
    requires Lasting(env, r, t1, t2) && NodeIdOf(r) == a + ":" + b
    ensures var n, v := env.networkId + ":" + a, Registered(env, r, t1, t2);
      && InStep(env, v) && n != env.networkId && MeshKey(n, b) in v
      && MeshKey(n, b) == MeshKey(env.networkId, NodeIdOf(r))
  {
    RegisteredInStep(env, r, t1, t2);
    ShiftedKey(env.networkId, a, b);
  }

  /** So a deregistration that names it takes the entries out of step. */
  lemma {:induction false} DeregisterSeparates(env: Env, r: Json, t1: int, t2: int, a: string, b: string)
    requires Lasting(env, r, t1, t2) && NodeIdOf(r) == a + ":" + b && b != ""
    ensures var t, u := Timed(t1, Register(r)), Timed(t2, Deregister(env.networkId + ":" + a, b));
      InStep(env, Run(env, map[], [t])) && !InStep(env, Run(env, map[], [t, u]))
  {
    var t, u := Timed(t1, Register(r)), Timed(t2, Deregister(env.networkId + ":" + a, b));
    NothingInStep(env);
    InStepInEveryRun(env, map[], [t]);
    ForeignKeyHits(env, r, t1, t2, a, b);
    RunOfTwo(env, t, u);
    DeregisterIff(env, Registered(env, r, t1, t2), t2, env.networkId + ":" + a, b);
  }

  /** So does a heartbeat that names it, if it changes the expiry at all. */
  lemma {:induction false} HeartbeatSeparates(env: Env, r: Json, t1: int, t2: int, a: string, b: string, until: string)
    requires Lasting(env, r, t1, t2) && NodeIdOf(r) == a + ":" + b && b != "" && until != ""
    requires t2 + TtlFromExpiresAt(env, until, t2) * 1000 != t1 + TtlFromExpiresAt(env, ExpiresAt(r), t1) * 1000
    ensures var t, u := Timed(t1, Register(r)), Timed(t2, HeartbeatNode(env.networkId + ":" + a, b, until));
      InStep(env, Run(env, map[], [t])) && !InStep(env, Run(env, map[], [t, u]))
  {
    var n := env.networkId + ":" + a;
    var t, u := Timed(t1, Register(r)), Timed(t2, HeartbeatNode(n, b, until));
    NothingInStep(env);
    InStepInEveryRun(env, map[], [t]);
    RegisteredInStep(env, r, t1, t2);
    ForeignKeyHits(env, r, t1, t2, a, b);
    RunOfTwo(env, t, u);
    HeartbeatNodeIff(env, Registered(env, r, t1, t2), t2, n, b, until);
  }

  /** And so does the legacy delete of a registered node. */
  lemma {:induction false} LegacyDeleteSeparates(env: Env, r: Json, t1: int, t2: int)
    requires Lasting(env, r, t1, t2)
    ensures var t, u := Timed(t1, Register(r)), Timed(t2, LegacyDelete(NodeIdOf(r)));
      InStep(env, Run(env, map[], [t])) && !InStep(env, Run(env, map[], [t, u]))
  {
    var t, u := Timed(t1, Register(r)), Timed(t2, LegacyDelete(NodeIdOf(r)));
    NothingInStep(env);
    InStepInEveryRun(env, map[], [t]);
    RegisteredInStep(env, r, t1, t2);
    RunOfTwo(env, t, u);
    LegacyDeleteIff(env, Registered(env, r, t1, t2), t2, NodeIdOf(r));
  }
}
